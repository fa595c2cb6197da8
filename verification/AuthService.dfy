/**
 The bodies of the authentication service, one call at a time. Each method also moves a ghost
 copy of the concurrent protocol, so that what is proved of every run applies to the service.
 Parameters named `...Up` say whether Redis carried out the call made at that point. Of a call that
 deletes or stores it does not matter whether it was answered: errors are logged and nothing else.
 */
module AuthService {
  import opened Wrappers
  import IntSets
  import opened SessionTable
  import opened SessionMachine
  import opened SessionTheorems

  datatype Error =
    | InvalidCredentials
    | SessionRevoked
    | SessionExpired
    | SessionNotFound
    | CredentialNotFound
    | SameAsOldPassword
    | ResetTokenExpired
    | PasswordTooWeak
    | UserLookupFailed
    | TokenFailed
    | HashFailed
    | ListFailed
    | UpsertFailed
    | TransactionFailed

  /** How the steps of RefreshToken after validation go; `finish` is the UPDATE and the commit. */
  datatype RefreshSteps = RefreshSteps(user: bool, tokens: bool, begin: bool, finish: bool)

  /** How the steps of Login from the refresh token on go. */
  datatype LoginSteps = LoginSteps(token: bool, upsert: Reply, access: bool)

  /** How the steps of ChangePassword and ResetPassword go; `finish` is the transaction. */
  datatype PasswordSteps = PasswordSteps(user: bool, hash: bool, list: bool, finish: bool)

  class Service {
    var rows: Table
    var cache: map<string, Session>
    var queue: set<Pending>
    var credentials: map<int, string>
    var resetTokens: map<string, int>
    ghost var model: State

    const ttl: int
    const verify: (string, string) -> bool
    const hashPassword: string -> string

    /** The service is between calls, and the protocol can be in the state it is in. */
    ghost predicate Valid()
      reads this
    {
      && model.rows == rows
      && model.cache == cache
      && model.queue == queue
      && model.flights == map[]
      && Reachable(model)
    }

    constructor (ttl: int, verify: (string, string) -> bool, hashPassword: string -> string)
      ensures Valid() && rows == map[] && cache == map[] && queue == {}
    {
      this.ttl, this.verify, this.hashPassword := ttl, verify, hashPassword;
      rows, cache, queue, credentials, resetTokens := map[], map[], {}, map[], map[];
      model := Init();
      new;
      assert Runs(Init(), []);
      assert After(Init(), []) == Init();
    }

    /** The protocol takes one action. */
    ghost method Take(a: Action)
      requires Reachable(model) && Enabled(model, a)
      modifies this`model
      ensures model == Apply(old(model), a) && Reachable(model)
    {
      ReachableStep(model, a);
      model := Apply(model, a);
    }

    /** getByRefreshTokenHash. */
    method FindByHash(hash: string) returns (r: Option<int>)
      ensures r.Some? ==> HoldsHash(rows, r.value, hash)
      ensures r.None? ==> forall id :: !HoldsHash(rows, id, hash)
    {
      var rest := rows.Keys;
      while rest != {}
        invariant rest <= rows.Keys
        invariant forall id :: id in rows && id !in rest ==> !HoldsHash(rows, id, hash)
      {
        IntSets.NonEmpty(rest);
        var id: int :| id in rest;
        if rows[id].hash == hash { return Some(id); }
        rest := rest - {id};
      }
      return None;
    }

    /** The row on which `ON CONFLICT (user_id, device_id)` fires. */
    method FindByDevice(userId: int, deviceId: int) returns (r: Option<int>)
      ensures r.Some? ==> HoldsDevice(rows, r.value, userId, deviceId)
      ensures r.None? ==> forall id :: !HoldsDevice(rows, id, userId, deviceId)
    {
      var rest := rows.Keys;
      while rest != {}
        invariant rest <= rows.Keys
        invariant forall id :: id in rows && id !in rest ==> !HoldsDevice(rows, id, userId, deviceId)
      {
        IntSets.NonEmpty(rest);
        var id: int :| id in rest;
        if rows[id].userId == userId && rows[id].deviceId == deviceId { return Some(id); }
        rest := rest - {id};
      }
      return None;
    }

    /** ListActiveByUserID: exactly the rows its WHERE clause selects. */
    method ListActive(userId: int, clock: int) returns (list: seq<Session>)
      ensures forall s :: s in list <==>
                          exists id :: id in rows && rows[id] == s
                                       && s.userId == userId && s.revokedAt.None? && s.expiredAt > clock
    {
      var rest := rows.Keys;
      list := [];
      while rest != {}
        invariant rest <= rows.Keys
        invariant forall s :: s in list ==> exists id :: id in rows && rows[id] == s && ListedActive(s, userId, clock)
        invariant forall id :: id in rows && id !in rest && ListedActive(rows[id], userId, clock) ==> rows[id] in list
      {
        IntSets.NonEmpty(rest);
        var id: int :| id in rest;
        if ListedActive(rows[id], userId, clock) { list := list + [rows[id]]; }
        rest := rest - {id};
      }
    }

    /** The copy of the session that RefreshToken validates, if there is one. */
    ghost predicate Reads(hash: string, getUp: bool, copy: Session)
      reads this
    {
      if getUp && hash in cache then copy == cache[hash]
      else exists id :: HoldsHash(rows, id, hash) && rows[id] == copy
    }

    /** Sections 1 and 2 of RefreshToken: cache first, database on a miss, then the two checks. */
    method ReadAndValidate(hash: string, now: int, getUp: bool) returns (r: Result<Session, Error>)
      requires Valid()
      ensures r.Success? ==> Reads(hash, getUp, r.value) && r.value.Usable(now)
      ensures r.Success? <==>
              exists copy :: Reads(hash, getUp, copy)
                             && copy.revokedAt.None? && copy.status == Active && now <= copy.expiredAt
      ensures r == Failure(SessionRevoked) <==>
              exists copy :: Reads(hash, getUp, copy) && (copy.revokedAt.Some? || copy.status != Active)
      ensures r == Failure(SessionExpired) <==>
              exists copy :: Reads(hash, getUp, copy)
                             && copy.revokedAt.None? && copy.status == Active && now > copy.expiredAt
      ensures r == Failure(InvalidCredentials) <==> forall copy :: !Reads(hash, getUp, copy)
      ensures r == Failure(InvalidCredentials) ==> forall id :: !HoldsHash(rows, id, hash)
    {
      var session: Session;
      if getUp && hash in cache {
        session := cache[hash];
      } else {
        var found := FindByHash(hash);
        if found.None? { return Failure(InvalidCredentials); }
        session := rows[found.value];
      }
      TableUnique(hash);
      assert Reads(hash, getUp, session);
      if session.IsRevoked() || session.status != Active { return Failure(SessionRevoked); }
      if session.IsExpired(now) { return Failure(SessionExpired); }
      return Success(session);
    }

    /** RefreshToken: validation, then the user and the tokens, then the rotating transaction and the cache. */
    method RefreshToken(hash: string, newHash: string, now: int, dbNow: int, getUp: bool, delUp: bool, k: RefreshSteps)
      returns (r: Result<Session, Error>)
      requires Valid() && newHash !in model.minted
      modifies `rows, `cache, `queue, `model
      ensures Valid()
      ensures r.Failure? ==> rows == old(rows) && cache == old(cache) && queue == old(queue)
      ensures r.Success? <==>
              && (exists copy :: old(Reads(hash, getUp, copy))
                                 && copy.revokedAt.None? && copy.status == Active && now <= copy.expiredAt)
              && k == RefreshSteps(true, true, true, true)
              && exists id :: HoldsHash(old(rows), id, hash)
      ensures r == Failure(SessionRevoked) <==>
              exists copy :: old(Reads(hash, getUp, copy)) && (copy.revokedAt.Some? || copy.status != Active)
      ensures r == Failure(SessionExpired) <==>
              exists copy :: old(Reads(hash, getUp, copy))
                             && copy.revokedAt.None? && copy.status == Active && now > copy.expiredAt
      ensures r == Failure(InvalidCredentials) ==> forall id :: !HoldsHash(old(rows), id, hash)
      ensures r.Success? ==>
                exists id :: HoldsHash(old(rows), id, hash)
                             && Exchanged(old(rows), id, rows, r.value, newHash, now, dbNow)
      ensures r.Success? ==> cache == if delUp then old(cache) - {hash} else old(cache)
      ensures r.Success? ==> queue == old(queue) + {Pending(newHash, r.value)}
    {
      TableUnique(hash);
      r := ReadAndValidate(hash, now, getUp);
      if r.Failure? { return; }
      ghost var copy := r.value;
      assert Reads(hash, getUp, copy);
      if !k.user { return Failure(UserLookupFailed); }
      if !k.tokens { return Failure(TokenFailed); }
      r := Exchange(hash, newHash, now, dbNow, getUp, delUp, k, copy);
    }

    /** Sections 5 and 6 of RefreshToken, for a copy that has passed validation. */
    method Exchange(hash: string, newHash: string, now: int, dbNow: int, getUp: bool, delUp: bool, k: RefreshSteps,
                    ghost copy: Session)
      returns (r: Result<Session, Error>)
      requires Valid() && newHash !in model.minted && Reads(hash, getUp, copy) && copy.Usable(now)
      modifies `rows, `cache, `queue, `model
      ensures Valid()
      ensures r.Failure? ==> rows == old(rows) && cache == old(cache) && queue == old(queue)
      ensures r.Success? <==> k.begin && k.finish && exists id :: HoldsHash(old(rows), id, hash)
      ensures r.Failure? ==> r.error in {TransactionFailed, InvalidCredentials}
      ensures r == Failure(InvalidCredentials) ==> forall id :: !HoldsHash(old(rows), id, hash)
      ensures r.Success? ==>
                exists id :: HoldsHash(old(rows), id, hash)
                             && Exchanged(old(rows), id, rows, r.value, newHash, now, dbNow)
      ensures r.Success? ==> cache == if delUp then old(cache) - {hash} else old(cache)
      ensures r.Success? ==> queue == old(queue) + {Pending(newHash, r.value)}
    {
      if !k.begin { return Failure(TransactionFailed); }
      TableUnique(hash);
      var found := FindByHash(hash);
      if found.None? { return Failure(InvalidCredentials); }
      if getUp && hash in cache {
        Take(ReadCache(0, hash, newHash, now));
      } else {
        Take(ReadRow(0, found.value, newHash, now));
      }
      r := Rotate(found.value, hash, newHash, now, dbNow, k.finish);
      if r.Failure? { return; }
      if delUp { DeleteSession(hash); }
    }

    /** DeleteSession of one hash. */
    method DeleteSession(hash: string)
      requires Valid()
      modifies `cache, `model
      ensures Valid() && cache == old(cache) - {hash}
    {
      cache := cache - {hash};
      Take(Drop({hash}));
    }

    /** Row `id` got the new hash, expiry and last-seen time, nothing else; `image` differs in updated_at only. */
    ghost predicate Exchanged(before: Table, id: int, t: Table, image: Session, newHash: string, now: int, dbNow: int) {
      && id in before
      && image == before[id].(hash := newHash, expiredAt := now + ttl, lastSeenAt := now)
      && t == before[id := image.(updatedAt := dbNow)]
    }

    /** Two rows never hold one hash. */
    lemma TableUnique(hash: string)
      requires Valid()
      ensures forall i, j :: HoldsHash(rows, i, hash) && HoldsHash(rows, j, hash) ==> i == j
    {
      ReachableInv(model);
    }

    /** Section 5 of RefreshToken: the rotating transaction, which rotates the row it locks or changes nothing. */
    method Rotate(id: int, hash: string, newHash: string, now: int, dbNow: int, finish: bool)
      returns (r: Result<Session, Error>)
      requires model.rows == rows && model.cache == cache && model.queue == queue && Reachable(model)
      requires model.flights == map[0 := Checked(hash, newHash, now)]
      requires HoldsHash(rows, id, hash)
      modifies `rows, `queue, `model
      ensures Valid()
      ensures r == Failure(TransactionFailed) <==> !finish
      ensures r.Failure? ==> r.error == TransactionFailed && rows == old(rows) && queue == old(queue)
      ensures r.Success? ==>
                && Exchanged(old(rows), id, rows, r.value, newHash, now, dbNow)
                && queue == old(queue) + {Pending(newHash, r.value)}
    {
      RowHasItsId(id);
      var image := RotateImage(rows[id], newHash, now, ttl);
      if !finish {
        Take(Stop(0));
        assert model.flights == map[];
        return Failure(TransactionFailed);
      }
      LockAndCommit(id, hash, newHash, now, dbNow);
      rows := RotateRow(rows, image, dbNow);
      queue := queue + {Pending(newHash, image)};
      return Success(image);
    }

    lemma RowHasItsId(id: int)
      requires model.rows == rows && Reachable(model) && id in rows
      ensures rows[id].id == id
    {
      ReachableInv(model);
    }

    /** The protocol locks the row and commits its rotation. */
    ghost method LockAndCommit(id: int, hash: string, newHash: string, now: int, dbNow: int)
      requires model.rows == rows && model.cache == cache && model.queue == queue && Reachable(model)
      requires model.flights == map[0 := Checked(hash, newHash, now)] && HoldsHash(rows, id, hash)
      modifies this`model
      ensures Reachable(model) && model.flights == map[] && model.cache == cache
      ensures var image := RotateImage(rows[id], newHash, now, ttl);
              model.rows == RotateRow(rows, image, dbNow) && model.queue == queue + {Pending(newHash, image)}
    {
      Take(Lock(0, id));
      Take(Commit(0, ttl, dbNow));
      assert model.flights == map[];
    }

    /** The session entity Login builds. */
    function Entity(userId: int, deviceId: int, hash: string, now: int, ip: string, userAgent: string): Session {
      Session(0, userId, deviceId, hash, Active, now + ttl, Some(ip), userAgent, now, None, None, 0, 0)
    }

    /**
     Sections 8 to 12 of Login: purge the old token, install the new one, cache it. `serial` is
     the next value of the id sequence, which the upsert uses only when the device has no row. When the
     answer of the upsert is lost or the access token cannot be made, the row is installed all the same,
     and not cached.
     */
    method Login(userId: int, deviceId: int, hash: string, now: int, dbNow: int, ip: string, userAgent: string,
                 serial: int, delUp: bool, setUp: bool, k: LoginSteps)
      returns (r: Result<Session, Error>, ghost session: Session)
      requires Valid() && hash !in model.minted && serial !in rows
      modifies `rows, `cache, `queue, `model
      ensures Valid() && queue == old(queue)
      ensures r == if !k.token then Failure(TokenFailed)
                   else if k.upsert != Answered then Failure(UpsertFailed)
                   else if !k.access then Failure(TokenFailed)
                   else Success(session)
      ensures !k.token || k.upsert == Refused ==> rows == old(rows)
      ensures k.token && k.upsert != Refused ==>
                && session == Session(session.id, userId, deviceId, hash, Active, now + ttl, Some(ip), userAgent, now,
                                      None, None, session.createdAt, dbNow)
                && rows == old(rows)[session.id := session]
                && (if HoldsDevice(old(rows), session.id, userId, deviceId)
                    then session.createdAt == old(rows)[session.id].createdAt
                    else session.id == serial && session.createdAt == dbNow)
                && (forall id :: HoldsDevice(rows, id, userId, deviceId) <==> id == session.id)
      ensures forall id :: HoldsDevice(old(rows), id, userId, deviceId) && delUp && !old(rows)[id].IsRevoked()
                           ==> old(rows)[id].hash !in cache
      ensures r.Success? && setUp ==> hash in cache && cache[hash] == session
      ensures r.Failure? || !setUp ==> hash !in cache
      ensures forall id :: HoldsHash(rows, id, hash) ==> id == session.id && k.token && k.upsert != Refused
      ensures forall h :: h in cache && (r.Failure? || h != hash) ==> h in old(cache) && cache[h] == old(cache)[h]
    {
      session := Entity(userId, deviceId, hash, now, ip, userAgent);
      NewHashUnheld(hash);
      var found := PurgeOld(userId, deviceId, delUp);
      if !k.token { return Failure(TokenFailed), session; }
      if k.upsert == Refused { return Failure(UpsertFailed), session; }
      var entity := Entity(userId, deviceId, hash, now, ip, userAgent);
      var stored := Install(if found.Some? then found.value else serial, entity, dbNow);
      if k.upsert == Lost || !k.access {
        SyncStore(Pending(hash, stored), false);
        return Failure(if k.upsert == Lost then UpsertFailed else TokenFailed), stored;
      }
      SyncStore(Pending(hash, stored), setUp);
      return Success(stored), stored;
    }

    lemma NewHashUnheld(hash: string)
      requires Valid() && hash !in model.minted
      ensures hash !in cache && forall id :: id in rows ==> rows[id].hash != hash
    {
      ReachableInv(model);
    }

    /**
     A token is good for the TTL and no longer: whether or not Redis has its session, a refresh of a new login's
     token at `later` passes validation if and only if `later` is not past `now + ttl`.
     */
    method LoginLasts(userId: int, deviceId: int, hash: string, now: int, dbNow: int, ip: string, userAgent: string,
                      serial: int, delUp: bool, setUp: bool, later: int, getUp: bool)
      returns (accepted: bool)
      requires Valid() && hash !in model.minted && serial !in rows
      modifies `rows, `cache, `queue, `model
      ensures Valid()
      ensures accepted <==> later <= now + ttl
    {
      var k := LoginSteps(true, Answered, true);
      var r, session := Login(userId, deviceId, hash, now, dbNow, ip, userAgent, serial, delUp, setUp, k);
      assert HoldsHash(rows, session.id, hash);
      assert Reads(hash, getUp, session);
      var v := ReadAndValidate(hash, later, getUp);
      accepted := v.Success?;
    }

    /** Section 8 of Login: drop the cache entry of the device's unrevoked session. */
    method PurgeOld(userId: int, deviceId: int, delUp: bool) returns (found: Option<int>)
      requires Valid()
      modifies `cache, `model
      ensures Valid() && model.minted == old(model.minted)
      ensures found.None? ==> cache == old(cache) && forall id :: !HoldsDevice(rows, id, userId, deviceId)
      ensures found.Some? ==> forall id :: HoldsDevice(rows, id, userId, deviceId) <==> id == found.value
      ensures found.Some? ==>
                && found.value in rows
                && cache == if delUp && !rows[found.value].IsRevoked() then old(cache) - {rows[found.value].hash}
                            else old(cache)
    {
      ReachableInv(model);
      found := FindByDevice(userId, deviceId);
      if found.Some? && rows[found.value].revokedAt.None? && delUp {
        cache := cache - {rows[found.value].hash};
        Take(Drop({rows[found.value].hash}));
      }
    }

    /** Section 11 of Login: the row of the device, or a new one, becomes the entity's. */
    method Install(id: int, entity: Session, dbNow: int) returns (session: Session)
      requires Valid() && NewSession(entity) && entity.hash !in model.minted
      requires UpsertTarget(rows, id, entity.userId, entity.deviceId)
      modifies `rows, `queue, `model
      ensures Valid()
      ensures rows == old(rows)[id := session]
      ensures session == entity.(id := id, updatedAt := dbNow,
                                 createdAt := if id in old(rows) then old(rows)[id].createdAt else dbNow)
      ensures queue == old(queue) + {Pending(entity.hash, session)} && Pending(entity.hash, session) !in old(queue)
      ensures forall x :: HoldsDevice(rows, x, entity.userId, entity.deviceId) <==> x == id
    {
      OneRowPerDevice(entity.userId, entity.deviceId);
      session := Upsert(id, entity, dbNow);
      forall x
        ensures HoldsDevice(rows, x, entity.userId, entity.deviceId) <==> x == id
      {
        if x != id {
          assert HoldsDevice(rows, x, entity.userId, entity.deviceId)
                 <==> HoldsDevice(old(rows), x, entity.userId, entity.deviceId);
        }
      }
    }

    lemma OneRowPerDevice(userId: int, deviceId: int)
      requires Valid()
      ensures forall i, j :: HoldsDevice(rows, i, userId, deviceId) && HoldsDevice(rows, j, userId, deviceId) ==> i == j
    {
      ReachableInv(model);
    }

    /** The upsert; the store that Login performs next is still outstanding. */
    method Upsert(id: int, entity: Session, dbNow: int) returns (session: Session)
      requires Valid() && NewSession(entity) && entity.hash !in model.minted
      requires UpsertTarget(rows, id, entity.userId, entity.deviceId)
      modifies `rows, `queue, `model
      ensures Valid()
      ensures rows == old(rows)[id := session]
      ensures session == entity.(id := id, updatedAt := dbNow,
                                 createdAt := if id in old(rows) then old(rows)[id].createdAt else dbNow)
      ensures queue == old(queue) + {Pending(entity.hash, session)} && Pending(entity.hash, session) !in old(queue)
    {
      ReachableInv(model);
      session := UpsertImage(rows, id, entity, dbNow);
      assert session == UpsertRow(rows, id, entity, dbNow);
      Take(SessionMachine.Action.Login(id, entity, dbNow));
      rows := rows[id := UpsertRow(rows, id, entity, dbNow)];
      queue := queue + {Pending(entity.hash, session)};
    }

    /** StoreSession in the request itself; a Redis error is logged and the store is lost. */
    method SyncStore(pending: Pending, setUp: bool)
      requires Valid() && pending in queue
      modifies `cache, `queue, `model
      ensures Valid()
      ensures queue == old(queue) - {pending}
      ensures cache == if setUp then old(cache)[pending.key := pending.image] else old(cache)
    {
      queue := queue - {pending};
      if setUp {
        cache := cache[pending.key := pending.image];
        Take(Store(pending));
      } else {
        Take(Lose(pending));
      }
    }

    /** The device's session, neither revoked nor taken out of the active status. */
    ghost predicate ActiveOn(s: Session, userId: int, deviceId: int) {
      s.userId == userId && s.deviceId == deviceId && s.revokedAt.None? && s.status == Active
    }

    /** A row that is not active is revoked; no two rows hold one hash. */
    lemma NoStatusWithoutRevocation()
      requires Valid()
      ensures forall id :: id in rows && rows[id].status != Active ==> rows[id].revokedAt.Some?
      ensures forall i, j :: i in rows && j in rows && rows[i].hash == rows[j].hash ==> i == j
    {
      ReachableInv(model);
    }

    /** What RevokeEffect says of every row. */
    lemma RevokesRows(which: Revocation, now: int, dbNow: int)
      requires Valid()
      ensures forall id :: id in rows ==> rows[id].id == id
      ensures RevokeRows(rows, which, now, dbNow).Keys == rows.Keys
      ensures which.ByDevice? ==>
                forall id :: id in rows ==>
                               RevokeRows(rows, which, now, dbNow)[id]
                               == if ActiveOn(rows[id], which.userId, which.deviceId)
                                  then RevokedRow(rows[id], now, dbNow, Revoked) else rows[id]
      ensures which.AllExcept? ==>
                forall id :: id in rows ==>
                               RevokeRows(rows, which, now, dbNow)[id]
                               == if rows[id].userId == which.userId && id != which.keep
                                     && rows[id].revokedAt.None? && rows[id].status == Active
                                  then RevokedRow(rows[id], now, dbNow, Revoked) else rows[id]
      ensures which.AllOfUser? ==>
                forall id :: id in rows ==>
                               RevokeRows(rows, which, now, dbNow)[id]
                               == if rows[id].userId == which.userId
                                     && rows[id].revokedAt.None? && rows[id].expiredAt > which.clock
                                  then RevokedRow(rows[id], now, dbNow, rows[id].status) else rows[id]
    {
      ReachableInv(model);
      forall id | id in rows { RevokeEffect(rows, which, now, dbNow, id); }
    }

    /**
     Logout revokes in the database only: neither the cache nor the queue is touched. An UPDATE whose answer is
     lost has revoked, and is reported as an error.
     */
    method Logout(userId: int, deviceId: int, now: int, dbNow: int, update: Reply) returns (r: Result<(), Error>)
      requires Valid()
      modifies `rows, `model
      ensures Valid()
      ensures update == Refused ==> rows == old(rows)
      ensures update != Refused ==>
                rows.Keys == old(rows).Keys
                && forall id :: id in rows ==>
                                  rows[id] == if ActiveOn(old(rows)[id], userId, deviceId)
                                              then RevokedRow(old(rows)[id], now, dbNow, Revoked)
                                              else old(rows)[id]
      ensures r == Failure(TransactionFailed) <==> update != Answered
      ensures r == Failure(SessionNotFound) <==>
              update == Answered && forall id :: id in old(rows) ==> !ActiveOn(old(rows)[id], userId, deviceId)
      ensures r == Failure(SessionNotFound) ==> rows == old(rows)
      ensures r.Success? ==>
                exists id :: HoldsDevice(old(rows), id, userId, deviceId) && old(rows)[id].InForce()
                             && !rows[id].InForce()
    {
      if update == Refused { return Failure(TransactionFailed); }
      var which := ByDevice(userId, deviceId);
      RevokesRows(which, now, dbNow);
      Take(SessionMachine.Action.Revoke(which, now, dbNow));
      var hit := HitIds(rows, which);
      rows := RevokeRows(rows, which, now, dbNow);
      if update == Lost { return Failure(TransactionFailed); }
      assert forall id :: id in hit <==> id in old(rows) && ActiveOn(old(rows)[id], userId, deviceId);
      if hit == {} {
        assert forall id :: id in old(rows) ==> id !in hit && rows[id] == old(rows)[id];
        assert rows == old(rows);
        return Failure(SessionNotFound);
      }
      IntSets.NonEmpty(hit);
      return Success(());
    }

    /** The hashes of the listed sessions, without that of the session to keep. */
    method HashesToDelete(list: seq<Session>, keep: Option<int>) returns (hashes: seq<string>)
      ensures forall h :: h in hashes <==> exists s :: s in list && Some(s.id) != keep && s.hash == h
    {
      hashes := [];
      for i := 0 to |list|
        invariant forall h :: h in hashes <==> exists j :: 0 <= j < i && Some(list[j].id) != keep && list[j].hash == h
      {
        if Some(list[i].id) != keep { hashes := hashes + [list[i].hash]; }
      }
    }

    /** DeleteSessions, when Redis answers. */
    method DeleteSessions(hashes: seq<string>)
      requires Valid()
      modifies `cache, `model
      ensures Valid() && model == old(model).(cache := cache)
      ensures cache == old(cache) - (set h | h in hashes)
    {
      var keys := {};
      for i := 0 to |hashes|
        invariant keys == set h | h in hashes[..i]
      {
        keys := keys + {hashes[i]};
      }
      assert hashes[..|hashes|] == hashes;
      cache := cache - keys;
      Take(Drop(keys));
    }

    /** Nothing is under way: no background store is queued. Between calls no refresh is in flight. */
    ghost predicate Quiet()
      reads this
    {
      queue == {}
    }

    /** The part of ChangePassword and ResetPassword that revokes in the database and then purges the cache. */
    method RevokeAndPurge(which: Revocation, now: int, dbNow: int, hashes: seq<string>, delUp: bool)
      requires Valid()
      modifies `rows, `cache, `model
      ensures Valid()
      ensures rows == RevokeRows(old(rows), which, now, dbNow)
      ensures cache == if delUp then old(cache) - (set h | h in hashes) else old(cache)
      ensures delUp && Quiet() ==>
                forall id, t :: id in rows && rows[id].hash in hashes && !rows[id].Usable(t) ==> Barred(model, id, t)
    {
      Take(SessionMachine.Action.Revoke(which, now, dbNow));
      rows := RevokeRows(rows, which, now, dbNow);
      if |hashes| > 0 {
        if delUp { DeleteSessions(hashes); }
      }
    }

    /**
     ChangePassword. When it succeeds on a quiet service with Redis reachable, every session
     that was active when it began, except the caller's, is barred for good; the caller's row
     and cached image are as they were.
     */
    method ChangePassword(userId: int, currentSession: int, currentPassword: string, newPassword: string,
                          clock: int, now: int, dbNow: int, delUp: bool, k: PasswordSteps)
      returns (r: Result<(), Error>)
      requires Valid()
      modifies `rows, `cache, `credentials, `model
      ensures Valid()
      ensures r.Failure? ==> rows == old(rows) && cache == old(cache) && credentials == old(credentials)
      ensures r == Failure(CredentialNotFound) <==> userId !in old(credentials)
      ensures r == Failure(InvalidCredentials) <==>
              userId in old(credentials) && !verify(currentPassword, old(credentials)[userId])
      ensures r == Failure(SameAsOldPassword) <==>
              && userId in old(credentials) && verify(currentPassword, old(credentials)[userId])
              && newPassword == currentPassword
      ensures r.Success? <==>
              && userId in old(credentials) && verify(currentPassword, old(credentials)[userId])
              && newPassword != currentPassword && k.hash && k.list && k.finish
      ensures r.Success? ==> credentials == old(credentials)[userId := hashPassword(newPassword)]
      ensures r.Success? ==>
                rows.Keys == old(rows).Keys
                && forall id :: id in rows ==>
                                  var s := old(rows)[id];
                                  rows[id] == if s.userId == userId && id != currentSession
                                                 && s.revokedAt.None? && s.status == Active
                                              then RevokedRow(s, now, dbNow, Revoked) else s
      ensures r.Success? && delUp && old(Quiet()) ==>
                forall id, t :: id in old(rows) && id != currentSession && old(rows)[id].userId == userId
                                && old(rows)[id].revokedAt.None? && old(rows)[id].expiredAt > clock
                                ==> Barred(model, id, t)
      ensures currentSession in old(rows) ==>
                && rows[currentSession] == old(rows)[currentSession]
                && (rows[currentSession].hash in old(cache) ==>
                      && rows[currentSession].hash in cache
                      && cache[rows[currentSession].hash] == old(cache)[rows[currentSession].hash])
    {
      if userId !in credentials { return Failure(CredentialNotFound); }
      if !verify(currentPassword, credentials[userId]) { return Failure(InvalidCredentials); }
      if newPassword == currentPassword { return Failure(SameAsOldPassword); }
      if !k.hash { return Failure(HashFailed); }
      if !k.list { return Failure(ListFailed); }
      var list := ListActive(userId, clock);
      var hashes := HashesToDelete(list, Some(currentSession));
      if !k.finish { return Failure(TransactionFailed); }
      RevokesRows(AllExcept(userId, currentSession), now, dbNow);
      NoStatusWithoutRevocation();
      credentials := credentials[userId := hashPassword(newPassword)];
      RevokeAndPurge(AllExcept(userId, currentSession), now, dbNow, hashes, delUp);
      ghost var before := old(rows);
      if delUp && Quiet() {
        forall id, t | id in before && id != currentSession && before[id].userId == userId
                       && before[id].revokedAt.None? && before[id].expiredAt > clock
          ensures Barred(model, id, t)
        {
          assert before[id] in list;
          assert before[id].hash in hashes;
        }
      }
      return Success(());
    }

    /**
     ResetPassword. The token is consumed before anything else can fail, also when its answer is lost. When
     it succeeds on a quiet service with Redis reachable, every session that was active when it began is
     barred at any time later than the clock of the revoking statement.
     */
    method ResetPassword(token: string, newPassword: string, strong: bool, clock: int, clock2: int, now: int,
                         dbNow: int, getDel: Reply, delUp: bool, k: PasswordSteps)
      returns (r: Result<int, Error>)
      requires Valid()
      modifies `rows, `cache, `credentials, `resetTokens, `model
      ensures Valid()
      ensures resetTokens == if strong && getDel != Refused then old(resetTokens) - {token} else old(resetTokens)
      ensures r.Failure? ==> rows == old(rows) && cache == old(cache) && credentials == old(credentials)
      ensures r.Success? <==>
              && strong && getDel == Answered
              && token in old(resetTokens) && old(resetTokens)[token] in old(credentials)
              && k == PasswordSteps(true, true, true, true)
      ensures r == Failure(ResetTokenExpired) <==> strong && !(getDel == Answered && token in old(resetTokens))
      ensures r.Success? ==>
                && r.value == old(resetTokens)[token]
                && credentials == old(credentials)[r.value := hashPassword(newPassword)]
                && rows.Keys == old(rows).Keys
                && forall id :: id in rows ==>
                                  var s := old(rows)[id];
                                  rows[id] == if s.userId == r.value && s.revokedAt.None? && s.expiredAt > clock2
                                              then RevokedRow(s, now, dbNow, s.status) else s
      ensures r.Success? && delUp && old(Quiet()) ==>
                forall id, t :: id in old(rows) && old(rows)[id].userId == r.value
                                && old(rows)[id].revokedAt.None? && old(rows)[id].expiredAt > clock && t > clock2
                                ==> Barred(model, id, t)
    {
      if !strong { return Failure(PasswordTooWeak); }
      if getDel == Refused { return Failure(ResetTokenExpired); }
      var found := if token in resetTokens then Some(resetTokens[token]) else None;
      resetTokens := resetTokens - {token};
      if getDel == Lost || found.None? { return Failure(ResetTokenExpired); }
      var userId := found.value;
      if !k.user { return Failure(UserLookupFailed); }
      if !k.list { return Failure(ListFailed); }
      var list := ListActive(userId, clock);
      var hashes := HashesToDelete(list, None);
      if !k.hash { return Failure(HashFailed); }
      if userId !in credentials { return Failure(CredentialNotFound); }
      if !k.finish { return Failure(TransactionFailed); }
      credentials := credentials[userId := hashPassword(newPassword)];
      RevokesRows(AllOfUser(userId, clock2), now, dbNow);
      RevokeAndPurge(AllOfUser(userId, clock2), now, dbNow, hashes, delUp);
      ghost var before := old(rows);
      if delUp && Quiet() {
        forall id, t | id in before && before[id].userId == userId
                       && before[id].revokedAt.None? && before[id].expiredAt > clock && t > clock2
          ensures Barred(model, id, t)
        {
          assert before[id] in list;
          assert before[id].hash in hashes;
        }
      }
      return Success(userId);
    }
  }
}
