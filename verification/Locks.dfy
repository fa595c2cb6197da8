/**
 The token-checked lock over expiring Redis keys.
 */
module Locks {
  import opened Wrappers

  /** The value of a lock key; without an expiry when the TTL given to SETNX was zero. */
  datatype Entry = Entry(token: string, expiresAt: Option<int>)

  /**
   A SETNX that took its key at server time `at`. When its answer was lost, `answered` is false and nobody has
   a *Lock for it; otherwise it stands for the *Lock handed out. `released` tells that the release
   script has run for it.
   */
  datatype Grant = Grant(key: string, token: string, ttl: nat, at: int, answered: bool, released: bool)

  datatype State = State(now: int, keys: map<string, Entry>, grants: seq<Grant>)

  datatype Action =
    | Tick(to: int)
    | Acquire(key: string, token: string, ttl: nat, answered: bool)
    | Release(grant: int)

  function Init(now: int): State { State(now, map[], []) }

  predicate Live(keys: map<string, Entry>, key: string, now: int) {
    key in keys && (keys[key].expiresAt.None? || now < keys[key].expiresAt.value)
  }

  function Expiry(at: int, ttl: nat): Option<int> {
    if ttl == 0 then None else Some(at + ttl)
  }

  /** A uuid is fresh: no grant has it. Only who got a *Lock can release it. */
  ghost predicate Enabled(s: State, a: Action) {
    match a
    case Tick(to) => to >= s.now
    case Acquire(_, token, _, _) => forall i :: 0 <= i < |s.grants| ==> s.grants[i].token != token
    case Release(i) => 0 <= i < |s.grants| && s.grants[i].answered
  }

  /** The script's comparison: the live value of the key is this token. */
  predicate Holds(keys: map<string, Entry>, key: string, token: string, now: int) {
    Live(keys, key, now) && keys[key].token == token
  }

  /** SETNX. */
  function Reserved(keys: map<string, Entry>, key: string, token: string, ttl: nat, now: int): map<string, Entry> {
    if Live(keys, key, now) then keys else keys[key := Entry(token, Expiry(now, ttl))]
  }

  /** The release script. */
  function Deleted(keys: map<string, Entry>, key: string, token: string, now: int): map<string, Entry> {
    if Holds(keys, key, token, now) then keys - {key} else keys
  }

  ghost function Apply(s: State, a: Action): State
    requires Enabled(s, a)
  {
    match a
    case Tick(to) => s.(now := to)
    case Acquire(key, token, ttl, answered) =>
      if Live(s.keys, key, s.now) then s
      else s.(keys := Reserved(s.keys, key, token, ttl, s.now),
           grants := s.grants + [Grant(key, token, ttl, s.now, answered, false)])
    case Release(i) =>
      var g := s.grants[i];
      s.(keys := Deleted(s.keys, g.key, g.token, s.now), grants := s.grants[i := g.(released := true)])
  }

  /** The grant still stands: it is unreleased and within its TTL. */
  predicate Stands(g: Grant, now: int) {
    !g.released && (g.ttl == 0 || now < g.at + g.ttl)
  }

  /** The value SETNX stored for the grant. */
  function EntryOf(g: Grant): Entry {
    Entry(g.token, Expiry(g.at, g.ttl))
  }

  ghost predicate Inv(s: State) {
    && (forall i, j :: 0 <= i < j < |s.grants| ==> s.grants[i].token != s.grants[j].token)
    && (forall i :: 0 <= i < |s.grants| && Stands(s.grants[i], s.now) ==>
                      s.grants[i].key in s.keys && s.keys[s.grants[i].key] == EntryOf(s.grants[i]))
    && (forall key :: key in s.keys ==> exists i :: Owner(s, i, key))
  }

  /** The entry under the key is that of grant `i`, which is unreleased as long as the entry lives. */
  ghost predicate Owner(s: State, i: int, key: string) {
    && 0 <= i < |s.grants| && key in s.keys
    && s.grants[i].key == key
    && s.keys[key] == EntryOf(s.grants[i])
    && (s.grants[i].released ==> !Live(s.keys, key, s.now))
  }

  lemma TickStep(s: State, a: Action)
    requires Inv(s) && Enabled(s, a) && a.Tick?
    ensures Inv(Apply(s, a))
  {
    forall key | key in s.keys
      ensures exists i :: Owner(Apply(s, a), i, key)
    {
      var i :| Owner(s, i, key);
      assert Owner(Apply(s, a), i, key);
    }
  }

  lemma AcquireStep(s: State, a: Action)
    requires Inv(s) && Enabled(s, a) && a.Acquire?
    ensures Inv(Apply(s, a))
  {
    var s' := Apply(s, a);
    if !Live(s.keys, a.key, s.now) {
      forall key | key in s'.keys
        ensures exists i :: Owner(s', i, key)
      {
        if key == a.key {
          assert Owner(s', |s.grants|, key);
        } else {
          var i :| Owner(s, i, key);
          assert Owner(s', i, key);
        }
      }
    }
  }

  lemma ReleaseStep(s: State, a: Action)
    requires Inv(s) && Enabled(s, a) && a.Release?
    ensures Inv(Apply(s, a))
  {
    var s' := Apply(s, a);
    forall key | key in s'.keys
      ensures exists i :: Owner(s', i, key)
    {
      var i :| Owner(s, i, key);
      assert Owner(s', i, key);
    }
  }

  lemma StepKeepsInv(s: State, a: Action)
    requires Inv(s) && Enabled(s, a)
    ensures Inv(Apply(s, a))
  {
    match a
    case Tick(_) => TickStep(s, a);
    case Acquire(_, _, _, _) => AcquireStep(s, a);
    case Release(_) => ReleaseStep(s, a);
  }

  ghost predicate Runs(s: State, acts: seq<Action>)
    decreases acts
  {
    acts == [] || (Enabled(s, acts[0]) && Runs(Apply(s, acts[0]), acts[1..]))
  }

  ghost function After(s: State, acts: seq<Action>): State
    requires Runs(s, acts)
    decreases acts
  {
    if acts == [] then s else After(Apply(s, acts[0]), acts[1..])
  }

  lemma {:induction false} RunKeepsInv(s: State, acts: seq<Action>)
    requires Inv(s) && Runs(s, acts)
    ensures Inv(After(s, acts))
    decreases acts
  {
    if acts != [] {
      StepKeepsInv(s, acts[0]);
      RunKeepsInv(Apply(s, acts[0]), acts[1..]);
    }
  }

  ghost predicate Reachable(s: State) {
    exists now, acts :: Runs(Init(now), acts) && After(Init(now), acts) == s
  }

  lemma ReachableInv(s: State)
    requires Reachable(s)
    ensures Inv(s)
  {
    var now, acts :| Runs(Init(now), acts) && After(Init(now), acts) == s;
    RunKeepsInv(Init(now), acts);
  }

  lemma {:induction false} RunsSnoc(s: State, acts: seq<Action>, a: Action)
    requires Runs(s, acts) && Enabled(After(s, acts), a)
    ensures Runs(s, acts + [a]) && After(s, acts + [a]) == Apply(After(s, acts), a)
    decreases acts
  {
    if acts == [] {
      assert Runs(Apply(s, a), []);
      assert ([a])[1..] == [];
    } else {
      RunsSnoc(Apply(s, acts[0]), acts[1..], a);
      assert (acts + [a])[1..] == acts[1..] + [a];
    }
  }

  lemma ReachableStep(s: State, a: Action)
    requires Reachable(s) && Enabled(s, a)
    ensures Reachable(Apply(s, a))
  {
    var now, acts :| Runs(Init(now), acts) && After(Init(now), acts) == s;
    RunsSnoc(Init(now), acts, a);
  }

  // ----- over whole runs

  /** Two grants of one key, answered or not, never both stand: no two unreleased *Locks within their TTL coexist. */
  lemma MutualExclusion(s: State, i: nat, j: nat)
    requires Reachable(s) && i < |s.grants| && j < |s.grants| && s.grants[i].key == s.grants[j].key
    requires Stands(s.grants[i], s.now) && Stands(s.grants[j], s.now)
    ensures i == j
  {
    ReachableInv(s);
  }

  /** The script finds its token exactly when the grant still stands. */
  lemma HoldsExactlyWhenStanding(s: State, i: nat)
    requires Reachable(s) && i < |s.grants|
    ensures Holds(s.keys, s.grants[i].key, s.grants[i].token, s.now) <==> Stands(s.grants[i], s.now)
  {
    ReachableInv(s);
    var g := s.grants[i];
    if Holds(s.keys, g.key, g.token, s.now) {
      var k :| Owner(s, k, g.key);
      assert k == i;
    }
  }

  /**
   Release deletes the key exactly when its handle still stands for the lock. Through an expired
   or released handle it changes nothing, whoever holds the key by then.
   */
  lemma ReleaseExactlyWhenHeld(s: State, i: nat)
    requires Reachable(s) && i < |s.grants| && s.grants[i].answered
    ensures var s', g := Apply(s, Release(i)), s.grants[i];
            && s'.keys == (if Stands(g, s.now) then s.keys - {g.key} else s.keys)
            && (Stands(g, s.now) ==> g.key in s.keys)
            && forall j :: 0 <= j < |s.grants| && j != i && Stands(s.grants[j], s.now) ==>
                             Stands(s'.grants[j], s.now)
                             && Holds(s'.keys, s.grants[j].key, s.grants[j].token, s.now)
  {
    HoldsExactlyWhenStanding(s, i);
    ReachableInv(s);
    ReleaseStep(s, Release(i));
  }

  /** Some *Lock on the key is unreleased and within its TTL. */
  ghost predicate Held(s: State, key: string) {
    exists i :: 0 <= i < |s.grants| && s.grants[i].key == key && s.grants[i].answered && Stands(s.grants[i], s.now)
  }

  /** Some SETNX took the key without being answered, and is within its TTL. */
  ghost predicate Orphaned(s: State, key: string) {
    exists i :: 0 <= i < |s.grants| && s.grants[i].key == key && !s.grants[i].answered && Stands(s.grants[i], s.now)
  }

  /** An acquisition succeeds exactly when no handle stands for the key and no lost SETNX on it is within its TTL. */
  lemma AcquiredExactlyWhenFree(s: State, key: string)
    requires Reachable(s)
    ensures !Live(s.keys, key, s.now) <==> !Held(s, key) && !Orphaned(s, key)
  {
    ReachableInv(s);
    if Live(s.keys, key, s.now) {
      var i :| Owner(s, i, key);
      assert Stands(s.grants[i], s.now);
    }
  }

  lemma {:induction false} OrphanStays(s: State, acts: seq<Action>, i: nat)
    requires Runs(s, acts) && i < |s.grants| && !s.grants[i].answered
    ensures i < |After(s, acts).grants| && After(s, acts).grants[i] == s.grants[i]
    decreases acts
  {
    if acts != [] {
      OrphanStays(Apply(s, acts[0]), acts[1..], i);
    }
  }

  /** Nobody can release an orphaned key: in every continuation it is taken exactly until its TTL, or for good. */
  lemma OrphanBlocksItsTTL(s: State, acts: seq<Action>, i: nat)
    requires Reachable(s) && Runs(s, acts) && i < |s.grants| && !s.grants[i].answered && !s.grants[i].released
    requires var g, now := s.grants[i], After(s, acts).now; g.ttl == 0 || now < g.at + g.ttl
    ensures Live(After(s, acts).keys, s.grants[i].key, After(s, acts).now) && !Held(After(s, acts), s.grants[i].key)
  {
    ReachableInv(s);
    RunKeepsInv(s, acts);
    OrphanStays(s, acts, i);
  }

  /** A lost answer takes any free key, for any TTL, without a handle. */
  lemma LostAnswerOrphans(s: State, key: string, token: string, ttl: nat)
    requires Reachable(s) && Enabled(s, Acquire(key, token, ttl, false)) && !Live(s.keys, key, s.now)
    ensures var s' := Apply(s, Acquire(key, token, ttl, false));
            Live(s'.keys, key, s'.now) && !Held(s', key) && Orphaned(s', key)
  {
    var s' := Apply(s, Acquire(key, token, ttl, false));
    ReachableStep(s, Acquire(key, token, ttl, false));
    var i := |s.grants|;
    assert Stands(s'.grants[i], s'.now);
    if Held(s', key) {
      var j :| 0 <= j < |s'.grants| && s'.grants[j].key == key && s'.grants[j].answered && Stands(s'.grants[j], s'.now);
      MutualExclusion(s', i, j);
    }
  }

  // ----- the Locker, call by call

  datatype Error = Unavailable | NotAcquired | NotHeld

  class Locker {
    var keys: map<string, Entry>
    var now: int
    ghost var model: State

    ghost predicate Valid()
      reads this
    {
      model.keys == keys && model.now == now && Reachable(model)
    }

    constructor (now: int)
      ensures Valid() && keys == map[] && this.now == now && model.grants == []
    {
      keys, this.now, model := map[], now, Init(now);
      new;
      assert Runs(Init(now), []) && After(Init(now), []) == Init(now);
    }

    ghost method Take(a: Action)
      requires Reachable(model) && Enabled(model, a)
      modifies this`model
      ensures model == Apply(old(model), a) && Reachable(model)
    {
      ReachableStep(model, a);
      model := Apply(model, a);
    }

    method Wait(to: int)
      requires Valid() && to >= now
      modifies `now, `model
      ensures Valid() && now == to && model.grants == old(model.grants)
    {
      Take(Tick(to));
      now := to;
    }

    /** Acquire. A SETNX whose answer is lost is reported as an error; the key it took is nobody's. */
    method Acquire(key: string, token: string, ttl: nat, setnx: Reply) returns (r: Result<Grant, Error>)
      requires Valid() && Enabled(model, Action.Acquire(key, token, ttl, true))
      modifies `keys, `model
      ensures Valid()
      ensures r == Failure(Unavailable) <==> setnx != Answered
      ensures r == Failure(NotAcquired) <==> setnx == Answered && Live(old(keys), key, now)
      ensures r.Success? ==>
                && r.value == Grant(key, token, ttl, now, true, false)
                && model.grants == old(model.grants) + [r.value] && Held(model, key)
      ensures if setnx == Refused || Live(old(keys), key, now) then keys == old(keys) && model == old(model)
              else keys == old(keys)[key := Entry(token, Expiry(now, ttl))]
      ensures setnx == Lost && !Live(old(keys), key, now) ==> Orphaned(model, key)
    {
      if setnx == Refused { return Failure(Unavailable); }
      var taken := Live(keys, key, now);
      Take(Action.Acquire(key, token, ttl, setnx == Answered));
      keys := Reserved(keys, key, token, ttl, now);
      ghost var i := |old(model).grants|;
      assert !taken ==> model.grants[i] == Grant(key, token, ttl, now, setnx == Answered, false);
      assert !taken ==> Stands(model.grants[i], now);
      if setnx == Lost { return Failure(Unavailable); }
      if taken { return Failure(NotAcquired); }
      return Success(Grant(key, token, ttl, now, true, false));
    }

    /** Release. A script that ran with its answer lost has deleted the lock, and is reported as an error. */
    method Release(lock: Option<Grant>, ghost i: nat, script: Reply) returns (r: Result<(), Error>)
      requires Valid()
      requires lock.Some? ==>
                 && i < |model.grants| && model.grants[i].answered
                 && model.grants[i].key == lock.value.key && model.grants[i].token == lock.value.token
      modifies `keys, `model
      ensures Valid()
      ensures lock.None? ==> r.Success? && keys == old(keys)
      ensures lock.Some? ==>
                var g := old(model.grants)[i];
                && (r == Failure(Unavailable) <==> script != Answered)
                && (r.Success? <==> script == Answered && Stands(g, now))
                && (r == Failure(NotHeld) <==> script == Answered && !Stands(g, now))
                && keys == if script != Refused && Stands(g, now) then old(keys) - {g.key} else old(keys)
    {
      if lock.None? { return Success(()); }
      if script == Refused { return Failure(Unavailable); }
      HoldsExactlyWhenStanding(model, i);
      var held := Holds(keys, lock.value.key, lock.value.token, now);
      Take(Action.Release(i));
      keys := Deleted(keys, lock.value.key, lock.value.token, now);
      if script == Lost { return Failure(Unavailable); }
      if !held { return Failure(NotHeld); }
      return Success(());
    }
  }
}
