/**
 The `user_sessions` table: its row, and each SQL statement the service issues
 against it, written as a function of the table.
 */
module SessionTable {
  import opened Wrappers

  datatype Status = Active | Revoked | Expired

  datatype Session = Session(
    id: int,
    userId: int,
    deviceId: int,
    hash: string,
    status: Status,
    expiredAt: int,
    ip: Option<string>,
    userAgent: string,
    lastSeenAt: int,
    revokedAt: Option<int>,
    revokedReason: Option<string>,
    createdAt: int,
    updatedAt: int)
  {
    predicate IsRevoked() { revokedAt.Some? }

    predicate IsExpired(now: int) { now > expiredAt }

    /** Neither revoked nor taken out of the active status; time plays no part. */
    predicate InForce() { !IsRevoked() && status == Active }

    /** The two checks RefreshToken makes on its copy before it rotates. */
    predicate Usable(now: int) { InForce() && !IsExpired(now) }
  }

  /** Rows by primary key. */
  type Table = map<int, Session>

  ghost predicate HoldsHash(t: Table, id: int, hash: string) {
    id in t && t[id].hash == hash
  }

  ghost predicate HoldsDevice(t: Table, id: int, userId: int, deviceId: int) {
    id in t && t[id].userId == userId && t[id].deviceId == deviceId
  }

  /** The row that `ON CONFLICT (user_id, device_id)` updates, or the id the sequence hands out. */
  ghost predicate UpsertTarget(t: Table, id: int, userId: int, deviceId: int) {
    if id in t
    then HoldsDevice(t, id, userId, deviceId)
    else forall other :: !HoldsDevice(t, other, userId, deviceId)
  }

  /** The row left behind by the upsert of `s` under `id`. */
  function UpsertRow(t: Table, id: int, s: Session, dbNow: int): Session {
    if id in t then
      t[id].(
      hash := s.hash, status := s.status, expiredAt := s.expiredAt, ip := s.ip,
      userAgent := s.userAgent, lastSeenAt := s.lastSeenAt, revokedAt := None, updatedAt := dbNow)
    else
      s.(id := id, revokedAt := None, revokedReason := None, createdAt := dbNow, updatedAt := dbNow)
  }

  /** The entity after `RETURNING id, created_at, updated_at` was scanned back into it. */
  function UpsertImage(t: Table, id: int, s: Session, dbNow: int): Session {
    var row := UpsertRow(t, id, s, dbNow);
    s.(id := row.id, createdAt := row.createdAt, updatedAt := row.updatedAt)
  }

  /** `Session.Rotate` followed by the new expiry, on the copy read under the row lock. */
  function RotateImage(row: Session, newHash: string, now: int, ttl: int): Session {
    row.(hash := newHash, lastSeenAt := now, expiredAt := now + ttl)
  }

  /** `UPDATE ... WHERE id`: three columns are written and the trigger stamps updated_at. */
  function RotateRow(t: Table, image: Session, dbNow: int): Table {
    if image.id in t then
      t[image.id := t[image.id].(
        hash := image.hash, expiredAt := image.expiredAt, lastSeenAt := image.lastSeenAt, updatedAt := dbNow)]
    else t
  }

  /** The three revoking UPDATE statements. */
  datatype Revocation =
    | ByDevice(userId: int, deviceId: int)
    | AllOfUser(userId: int, clock: int)
    | AllExcept(userId: int, keep: int)

  /** The WHERE clause of each revoking statement. */
  predicate Hits(r: Revocation, s: Session) {
    && s.userId == r.userId
    && s.revokedAt.None?
    && match r {
         case ByDevice(_, deviceId) => s.deviceId == deviceId && s.status == Active
         case AllOfUser(_, clock) => s.expiredAt > clock
         case AllExcept(_, keep) => s.id != keep && s.status == Active
       }
  }

  function RevokeOne(r: Revocation, s: Session, at: int, dbNow: int): Session {
    if !Hits(r, s) then s
    else if r.AllOfUser? then s.(revokedAt := Some(at), updatedAt := dbNow)
    else s.(revokedAt := Some(at), status := Revoked, updatedAt := dbNow)
  }

  function RevokeRows(t: Table, r: Revocation, at: int, dbNow: int): Table {
    map id | id in t :: RevokeOne(r, t[id], at, dbNow)
  }

  /** Ids of the rows a revoking statement changes. */
  function HitIds(t: Table, r: Revocation): set<int> {
    set id | id in t && Hits(r, t[id])
  }

  /** The row with its revocation fields written, by a statement that sets the status too or not. */
  function RevokedRow(s: Session, at: int, dbNow: int, status: Status): Session {
    s.(revokedAt := Some(at), status := status, updatedAt := dbNow)
  }

  /**
   What each revoking statement does to a row, in terms of its columns. ByDevice takes the one device of the user
   and no other, AllExcept every active row of the user but the one to keep, AllOfUser every row of the
   user that has not expired, whose status it leaves. Rows already revoked and other users' rows stay.
   */
  lemma RevokeEffect(t: Table, r: Revocation, at: int, dbNow: int, id: int)
    requires id in t && t[id].id == id
    ensures var before, after := t[id], RevokeRows(t, r, at, dbNow)[id];
            && (before.userId != r.userId || before.revokedAt.Some? ==> after == before)
            && (r.ByDevice? && before.deviceId != r.deviceId ==> after == before)
            && (r.AllExcept? && id == r.keep ==> after == before)
            && (r.AllOfUser? && before.expiredAt <= r.clock ==> after == before)
            && (!r.AllOfUser? && before.status != Active ==> after == before)
            && (before.userId == r.userId && before.revokedAt.None? ==>
                  && (r.ByDevice? && before.deviceId == r.deviceId && before.status == Active ==>
                        after == RevokedRow(before, at, dbNow, Revoked))
                  && (r.AllExcept? && id != r.keep && before.status == Active ==>
                        after == RevokedRow(before, at, dbNow, Revoked))
                  && (r.AllOfUser? && before.expiredAt > r.clock ==>
                        after == RevokedRow(before, at, dbNow, before.status)))
            && after.(status := before.status, revokedAt := before.revokedAt, updatedAt := before.updatedAt) == before
            && (after != before ==> after.revokedAt == Some(at) && (after.status == Revoked || r.AllOfUser?))
  {}

  /** The WHERE clause of ListActiveByUserID. */
  predicate ListedActive(s: Session, userId: int, clock: int) {
    s.userId == userId && s.revokedAt.None? && s.expiredAt > clock
  }
}
