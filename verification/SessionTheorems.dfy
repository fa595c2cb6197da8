/**
 What holds over whole runs of the session protocol, from any schedule of its actions.
 */
module SessionTheorems {
  import opened Wrappers
  import IntSets
  import opened SessionTable
  import opened SessionMachine

  /** Each action of the list is enabled where it is taken. */
  ghost predicate Runs(s: State, acts: seq<Action>)
    decreases acts
  {
    acts == [] || (Enabled(s, acts[0]) && Runs(Apply(s, acts[0]), acts[1..]))
  }

  ghost function After(s: State, acts: seq<Action>): State
    requires Runs(s, acts)
    decreases acts
  {
    if acts == [] then s else After(Apply(s, acts[0]), acts[1..])
  }

  ghost predicate Reachable(s: State) {
    exists acts :: Runs(Init(), acts) && After(Init(), acts) == s
  }

  lemma {:induction false} RunsSnoc(s: State, acts: seq<Action>, a: Action)
    requires Runs(s, acts) && Enabled(After(s, acts), a)
    ensures Runs(s, acts + [a]) && After(s, acts + [a]) == Apply(After(s, acts), a)
    decreases acts
  {
    if acts == [] {
      assert Runs(Apply(s, a), []);
      assert ([a])[1..] == [];
    } else {
      RunsSnoc(Apply(s, acts[0]), acts[1..], a);
      assert (acts + [a])[1..] == acts[1..] + [a];
    }
  }

  lemma ReachableStep(s: State, a: Action)
    requires Reachable(s) && Enabled(s, a)
    ensures Reachable(Apply(s, a))
  {
    var acts :| Runs(Init(), acts) && After(Init(), acts) == s;
    RunsSnoc(Init(), acts, a);
  }

  lemma {:induction false} RunKeepsInv(s: State, acts: seq<Action>)
    requires Inv(s) && Runs(s, acts)
    ensures Inv(After(s, acts))
    decreases acts
  {
    if acts != [] {
      StepKeepsInv(s, acts[0]);
      RunKeepsInv(Apply(s, acts[0]), acts[1..]);
    }
  }

  lemma ReachableInv(s: State)
    requires Reachable(s)
    ensures Inv(s)
  {
    var acts :| Runs(Init(), acts) && After(Init(), acts) == s;
    RunKeepsInv(Init(), acts);
  }

  lemma {:induction false} LogGrows(s: State, acts: seq<Action>)
    requires Runs(s, acts)
    ensures s.log <= After(s, acts).log
    decreases acts
  {
    if acts != [] {
      assert s.log <= Apply(s, acts[0]).log;
      LogGrows(Apply(s, acts[0]), acts[1..]);
    }
  }

  // ----- a revoked row is rotated at most once more

  ghost predicate LoginBetween(log: seq<Event>, id: int, lo: int, hi: int) {
    exists m :: 0 <= m < |log| && lo < m < hi && log[m].LoggedIn? && log[m].id == id
  }

  /** From a revocation at `i` to `n`, without a Login, the row stays cut off; a rotation spends it. */
  lemma {:induction false} PhaseAfterRevocation(log: seq<Event>, id: int, i: nat, j: nat, n: nat)
    requires i < n <= |log| && i < j < |log|
    requires log[i].RevokedRows? && id in log[i].ids
    requires log[j].Rotated? && log[j].id == id
    requires !LoginBetween(log, id, i, n)
    ensures PhaseOf(log[..n], id) != Clean
    ensures j < n ==> PhaseOf(log[..n], id) == Spent
    decreases n
  {
    var l := log[..n];
    assert l[..n - 1] == log[..n - 1];
    if n - 1 > i {
      PhaseAfterRevocation(log, id, i, j, n - 1);
    }
  }

  /**
   In every run: if a row is revoked at `i` and rotated at `j` and again at `k`, its device
   logged in between the revocation and the second rotation.
   */
  lemma RevokedRotatesAtMostOnce(acts: seq<Action>, id: int, i: nat, j: nat, k: nat)
    requires Runs(Init(), acts)
    requires i < j < k < |After(Init(), acts).log|
    requires After(Init(), acts).log[i].RevokedRows? && id in After(Init(), acts).log[i].ids
    requires After(Init(), acts).log[j].Rotated? && After(Init(), acts).log[j].id == id
    requires After(Init(), acts).log[k].Rotated? && After(Init(), acts).log[k].id == id
    ensures LoginBetween(After(Init(), acts).log, id, i, k)
  {
    RunKeepsInv(Init(), acts);
    var log := After(Init(), acts).log;
    if !LoginBetween(log, id, i, k) {
      PhaseAfterRevocation(log, id, i, j, k);
    }
  }

  // ----- a token hash is exchanged at most once

  lemma ExchangedAtMostOnce(acts: seq<Action>, i: nat, j: nat)
    requires Runs(Init(), acts)
    requires i < j < |After(Init(), acts).log|
    requires After(Init(), acts).log[i].Rotated? && After(Init(), acts).log[j].Rotated?
    ensures After(Init(), acts).log[i].oldHash != After(Init(), acts).log[j].oldHash
  {
    RunKeepsInv(Init(), acts);
  }

  /** Some row holds the hash, so a rotating transaction would find it. */
  ghost predicate Exchangeable(s: State, hash: string) {
    exists id :: HoldsHash(s.rows, id, hash)
  }

  /** A device has at most one hash that can be exchanged. */
  lemma OneHashPerDevice(s: State, i: int, j: int, userId: int, deviceId: int)
    requires Reachable(s)
    requires HoldsDevice(s.rows, i, userId, deviceId) && HoldsDevice(s.rows, j, userId, deviceId)
    ensures s.rows[i].hash == s.rows[j].hash
  {
    ReachableInv(s);
  }

  lemma RetiredStep(s: State, a: Action, hash: string)
    requires Inv(s) && Enabled(s, a)
    requires hash in s.births && !Exchangeable(s, hash)
    ensures hash in Apply(s, a).births && !Exchangeable(Apply(s, a), hash)
    ensures |Apply(s, a).log| > |s.log| && Apply(s, a).log[|s.log|].Rotated? ==>
              Apply(s, a).log[|s.log|].oldHash != hash
  {
    var s' := Apply(s, a);
    forall id
      ensures !HoldsHash(s'.rows, id, hash)
    {
      assert !HoldsHash(s.rows, id, hash);
    }
    if a.Commit? {
      assert !HoldsHash(s.rows, s.flights[a.pid].id, hash);
    }
  }

  /** A hash that was installed and is held no more is never exchanged, whatever the cache still holds under it. */
  lemma {:induction false} RetiredForever(s: State, acts: seq<Action>, hash: string)
    requires Inv(s) && Runs(s, acts)
    requires hash in s.births && !Exchangeable(s, hash)
    ensures !Exchangeable(After(s, acts), hash)
    ensures forall k :: |s.log| <= k < |After(s, acts).log| && After(s, acts).log[k].Rotated? ==>
                          After(s, acts).log[k].oldHash != hash
    decreases acts
  {
    if acts != [] {
      var s' := Apply(s, acts[0]);
      RetiredStep(s, acts[0], hash);
      StepKeepsInv(s, acts[0]);
      RetiredForever(s', acts[1..], hash);
      LogGrows(s', acts[1..]);
    }
  }

  // ----- exactly when a row can still be rotated

  ghost predicate InFlight(s: State, hash: string) {
    exists pid :: pid in s.flights && s.flights[pid].hash == hash
  }

  /** An image of the hash that would pass validation at `t` is cached or queued. */
  ghost predicate Stored(s: State, hash: string, t: int) {
    || (hash in s.cache && s.cache[hash].Usable(t))
    || (exists p :: p in s.queue && p.key == hash && p.image.Usable(t))
  }

  /** A refresh can pass validation for the row on a stored image at `t`, or has passed it. */
  ghost predicate Leaks(s: State, id: int, t: int)
    requires id in s.rows
  {
    Stored(s, s.rows[id].hash, t) || InFlight(s, s.rows[id].hash)
  }

  /** No refresh that reads the clock at `t` or later can use the row. */
  ghost predicate Barred(s: State, id: int, t: int) {
    id in s.rows && !s.rows[id].Usable(t) && !Leaks(s, id, t)
  }

  /** Refreshes read the clock at `t` or later. */
  predicate ReadsFrom(a: Action, t: int) {
    a.ReadCache? || a.ReadRow? ==> a.now >= t
  }

  /** Some steps without a Login on the row's device, with refreshes from `t` on. */
  ghost predicate Quietly(acts: seq<Action>, id: int, t: int) {
    forall a :: a in acts ==> ReadsFrom(a, t) && (a.Login? ==> a.id != id)
  }

  /** The run rotates the row. */
  ghost predicate Rotates(s: State, acts: seq<Action>, id: int)
    requires Runs(s, acts)
  {
    exists k :: |s.log| <= k < |After(s, acts).log| && After(s, acts).log[k].Rotated? && After(s, acts).log[k].id == id
  }

  /** A schedule without a Login on the row's device, with refreshes from `t` on, that rotates the row. */
  ghost predicate RotatesFrom(s: State, acts: seq<Action>, id: int, t: int) {
    Runs(s, acts) && Quietly(acts, id, t) && Rotates(s, acts, id)
  }

  /** The action does not rotate the row. */
  ghost predicate Spares(s: State, a: Action, id: int)
    requires Enabled(s, a)
  {
    a.Commit? ==> s.flights[a.pid].id != id
  }

  /** No refresh passes validation for a barred row. */
  lemma BarredFlights(s: State, a: Action, id: int, t: int)
    requires Inv(s) && Enabled(s, a) && ReadsFrom(a, t) && Barred(s, id, t)
    ensures !InFlight(Apply(s, a), s.rows[id].hash)
  {
    var s', h := Apply(s, a), s.rows[id].hash;
    forall pid | pid in s'.flights
      ensures s'.flights[pid].hash != h
    {
      if pid in s.flights {
        assert s.flights[pid].hash != h;
      }
    }
  }

  lemma BarredStep(s: State, a: Action, id: int, t: int)
    requires Inv(s) && Enabled(s, a) && ReadsFrom(a, t) && Barred(s, id, t)
    requires a.Login? ==> a.id != id
    ensures Barred(Apply(s, a), id, t) && Spares(s, a, id)
  {
    BarredFlights(s, a, id, t);
    if a.Commit? {
      assert s.flights[a.pid].hash != s.rows[id].hash;
    }
    assert Apply(s, a).rows[id].hash == s.rows[id].hash && !Apply(s, a).rows[id].Usable(t);
  }

  lemma RotatesTail(s: State, acts: seq<Action>, id: int)
    requires acts != [] && Runs(s, acts)
    requires Spares(s, acts[0], id) && !Rotates(Apply(s, acts[0]), acts[1..], id)
    ensures !Rotates(s, acts, id)
  {
    var s' := Apply(s, acts[0]);
    LogGrows(s', acts[1..]);
    forall k | |s.log| <= k < |After(s, acts).log| && After(s, acts).log[k].Rotated?
      ensures After(s, acts).log[k].id != id
    {
      if k < |s'.log| {
        assert s'.log[k] == After(s, acts).log[k];
      }
    }
  }

  /** A barred row is not rotated by any schedule whose refreshes start at `t` or later, until the next Login. */
  lemma {:induction false} BarredForever(s: State, acts: seq<Action>, id: int, t: int)
    requires Inv(s) && Runs(s, acts) && Barred(s, id, t) && Quietly(acts, id, t)
    ensures Barred(After(s, acts), id, t) && !Rotates(s, acts, id)
    decreases acts
  {
    if acts != [] {
      BarredStep(s, acts[0], id, t);
      StepKeepsInv(s, acts[0]);
      BarredForever(Apply(s, acts[0]), acts[1..], id, t);
      RotatesTail(s, acts, id);
    }
  }

  lemma RotatesCons(s: State, a: Action, acts: seq<Action>, id: int, t: int)
    requires Enabled(s, a) && !a.Login? && ReadsFrom(a, t) && RotatesFrom(Apply(s, a), acts, id, t)
    ensures RotatesFrom(s, [a] + acts, id, t)
  {
    assert ([a] + acts)[1..] == acts;
    assert |s.log| <= |Apply(s, a).log|;
    var end := After(Apply(s, a), acts).log;
    var k :| |Apply(s, a).log| <= k < |end| && end[k].Rotated? && end[k].id == id;
    assert After(s, [a] + acts).log == end;
  }

  lemma CommitRotates(s: State, pid: int, t: int) returns (acts: seq<Action>)
    requires pid in s.flights && s.flights[pid].Locked?
    ensures RotatesFrom(s, acts, s.flights[pid].id, t)
  {
    var a := Commit(pid, 0, 0);
    acts := [a];
    assert acts[1..] == [];
    assert After(s, acts) == Apply(s, a);
    assert Apply(s, a).log[|s.log|].Rotated?;
  }

  lemma FlightRotates(s: State, id: int, t: int) returns (acts: seq<Action>)
    requires Inv(s) && id in s.rows && InFlight(s, s.rows[id].hash)
    ensures RotatesFrom(s, acts, id, t)
  {
    if Free(s, id) {
      var pid :| pid in s.flights && s.flights[pid].hash == s.rows[id].hash;
      var a := Lock(pid, id);
      acts := CommitRotates(Apply(s, a), pid, t);
      RotatesCons(s, a, acts, id, t);
      acts := [a] + acts;
    } else {
      var pid :| pid in s.flights && s.flights[pid].Locked? && s.flights[pid].id == id;
      acts := CommitRotates(s, pid, t);
    }
  }

  /** A refresh that passes validation at `t`, from the cache or from the row, goes on to rotate. */
  lemma ReadRotates(s: State, id: int, a: Action, t: int) returns (acts: seq<Action>)
    requires Inv(s) && Enabled(s, a) && id in s.rows && (a.ReadCache? || a.ReadRow?) && a.now == t
    requires if a.ReadCache? then a.hash == s.rows[id].hash else a.id == id
    ensures RotatesFrom(s, acts, id, t)
  {
    StepKeepsInv(s, a);
    assert Apply(s, a).flights[a.pid].hash == s.rows[id].hash;
    acts := FlightRotates(Apply(s, a), id, t);
    RotatesCons(s, a, acts, id, t);
    acts := [a] + acts;
  }

  lemma OpenRotates(s: State, id: int, t: int, pid: int, unused: string) returns (acts: seq<Action>)
    requires Inv(s) && id in s.rows && !Barred(s, id, t)
    requires pid !in s.flights && unused !in s.minted
    ensures RotatesFrom(s, acts, id, t)
  {
    var h := s.rows[id].hash;
    if InFlight(s, h) {
      acts := FlightRotates(s, id, t);
    } else if s.rows[id].Usable(t) {
      acts := ReadRotates(s, id, ReadRow(pid, id, unused, t), t);
    } else if h in s.cache && s.cache[h].Usable(t) {
      acts := ReadRotates(s, id, ReadCache(pid, h, unused, t), t);
    } else {
      var p :| p in s.queue && p.key == h && p.image.Usable(t);
      var a := Store(p);
      StepKeepsInv(s, a);
      acts := ReadRotates(Apply(s, a), id, ReadCache(pid, h, unused, t), t);
      RotatesCons(s, a, acts, id, t);
      acts := [a] + acts;
    }
  }

  lemma UnusedHash(used: set<string>) returns (hash: string)
    ensures hash !in used
  {
    var rest, n: nat := used, 0;
    while rest != {}
      invariant rest <= used
      invariant forall x :: x in used && x !in rest ==> |x| < n
    {
      var x :| x in rest;
      n := if |x| < n then n else |x| + 1;
      rest := rest - {x};
    }
    hash := seq(n, _ => 'x');
  }

  /**
   From any reachable state, some schedule without a Login on its device and with refreshes from `t` on
   rotates a row if and only if the row itself is usable at `t` or the state leaks.
   */
  lemma RotatableExactlyWhen(s: State, id: int, t: int)
    requires Reachable(s) && id in s.rows
    ensures (exists acts :: RotatesFrom(s, acts, id, t)) <==> s.rows[id].Usable(t) || Leaks(s, id, t)
  {
    ReachableInv(s);
    if Barred(s, id, t) {
      forall acts | Runs(s, acts) && Quietly(acts, id, t)
        ensures !RotatesFrom(s, acts, id, t)
      {
        BarredForever(s, acts, id, t);
      }
    } else {
      var pid := IntSets.Unused(s.flights.Keys);
      var unused := UnusedHash(s.minted);
      var acts := OpenRotates(s, id, t, pid, unused);
    }
  }

  /**
   So a revoked row is rotated again, by refreshes from `t` on, if and only if an image that is usable at
   `t` is cached or queued under its hash or a refresh is past validation: the exact measure of
   what Logout and the profile revocations leave open by not purging the cache.
   */
  lemma RotatedAgainExactlyWhenLeaking(s: State, id: int, t: int)
    requires Reachable(s) && id in s.rows && s.rows[id].IsRevoked()
    ensures (exists acts :: RotatesFrom(s, acts, id, t)) <==> Leaks(s, id, t)
  {
    RotatableExactlyWhen(s, id, t);
  }

  /** The row of a device that has logged in, as `x`, and out again, with the image of its session in the cache. */
  ghost predicate LoggedOut(s: State, x: Session) {
    && HoldsHash(s.rows, 1, x.hash) && x.hash in s.cache && s.cache[x.hash] == UpsertImage(map[], 1, x, 0)
    && s.minted == {x.hash} && s.flights == map[] && s.log == [LoggedIn(1, x.hash), RevokedRows({1})]
  }

  lemma LoginAndOut(x: Session) returns (acts: seq<Action>)
    requires NewSession(x)
    ensures Runs(Init(), acts) && Revoke(ByDevice(x.userId, x.deviceId), 5, 5) in acts
    ensures LoggedOut(After(Init(), acts), x)
  {
    var logout := Revoke(ByDevice(x.userId, x.deviceId), 5, 5);
    var script := [Login(1, x, 0), Store(Pending(x.hash, UpsertImage(map[], 1, x, 0))), logout];
    var s := Init();
    acts := [];
    for i := 0 to 3
      invariant Runs(Init(), acts) && After(Init(), acts) == s && acts == script[..i]
      invariant i == 0 ==> s == Init()
      invariant 1 <= i <= 2 ==> s.rows == map[1 := UpsertRow(map[], 1, x, 0)] && s.log == [LoggedIn(1, x.hash)]
      invariant 1 <= i <= 2 ==> s.minted == {x.hash} && s.flights == map[]
      invariant i == 1 ==> s.queue == {Pending(x.hash, UpsertImage(map[], 1, x, 0))}
      invariant i == 2 ==> x.hash in s.cache && s.cache[x.hash] == UpsertImage(map[], 1, x, 0)
      invariant i == 3 ==> LoggedOut(s, x)
    {
      if i == 2 {
        assert HitIds(s.rows, ByDevice(x.userId, x.deviceId)) == {1};
      }
      RunsSnoc(Init(), acts, script[i]);
      acts := acts + [script[i]];
      s := Apply(s, script[i]);
    }
    assert acts[2] == logout;
  }

  /**
   The bound of one rotation is reached: for every user and device there is a run whose log is a Login, a
   Logout and a rotation of the same row.
   */
  lemma LogoutLeavesALeak(userId: int, deviceId: int) returns (acts: seq<Action>, id: int)
    ensures Runs(Init(), acts) && Revoke(ByDevice(userId, deviceId), 5, 5) in acts
    ensures var log := After(Init(), acts).log;
            && |log| == 3 && log[0].LoggedIn? && log[1] == RevokedRows({id}) && log[2].Rotated?
            && log[0].id == id && log[2].id == id
  {
    id := 1;
    acts := LoginAndOut(Session(0, userId, deviceId, "h", Active, 100, None, "", 0, None, None, 0, 0));
    var a, b, c := ReadCache(0, "h", "g", 6), Lock(0, 1), Commit(0, 100, 6);
    RunsSnoc(Init(), acts, a);
    acts := acts + [a];
    RunsSnoc(Init(), acts, b);
    acts := acts + [b];
    RunsSnoc(Init(), acts, c);
    acts := acts + [c];
  }

  // ----- the cache

  /** Equal in every field that a revoking statement does not write. */
  predicate SameButRevocation(image: Session, row: Session) {
    image.(status := row.status, revokedAt := row.revokedAt, updatedAt := row.updatedAt) == row
  }

  /**
   Whatever is cached or queued under the hash a row holds is that row, except that the row
   may have been revoked since; a revoked image means a revoked row.
   */
  lemma CacheCoherence(s: State, id: int, image: Session)
    requires Reachable(s) && id in s.rows
    requires
      || (s.rows[id].hash in s.cache && s.cache[s.rows[id].hash] == image)
      || Pending(s.rows[id].hash, image) in s.queue
    ensures SameButRevocation(image, s.rows[id])
    ensures s.rows[id].hash in s.births && SameImage(image, s.births[s.rows[id].hash])
    ensures image.IsRevoked() ==> s.rows[id].IsRevoked()
    ensures s.rows[id].InForce() ==> image.InForce()
  {
    ReachableInv(s);
  }

  /**
   Whatever happens from a state in which a row is barred at `t`, with refreshes from `t` on and until the
   next Login on its device, neither the cache path nor the database path of RefreshToken accepts the hash.
   */
  lemma BarredRefuses(s: State, acts: seq<Action>, id: int, t: int, now: int)
    requires Reachable(s) && Barred(s, id, t) && Runs(s, acts) && Quietly(acts, id, t) && now >= t
    ensures var s' := After(s, acts);
            && id in s'.rows && !s'.rows[id].Usable(now)
            && (s'.rows[id].hash in s'.cache ==> !s'.cache[s'.rows[id].hash].Usable(now))
            && !Rotates(s, acts, id)
  {
    ReachableInv(s);
    BarredForever(s, acts, id, t);
  }
}
