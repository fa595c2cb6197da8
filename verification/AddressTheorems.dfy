/**
 What the default-address rule guarantees over every interleaving of address operations.
 */
module AddressTheorems {
  import opened Wrappers
  import IntSets
  import opened Addresses

  ghost predicate Runs(s: State, acts: seq<Action>)
    decreases acts
  {
    acts == [] || (Enabled(s, acts[0]) && Runs(Apply(s, acts[0]), acts[1..]))
  }

  ghost function After(s: State, acts: seq<Action>): State
    requires Runs(s, acts)
    decreases acts
  {
    if acts == [] then s else After(Apply(s, acts[0]), acts[1..])
  }

  lemma {:induction false} RunKeepsInv(s: State, acts: seq<Action>)
    requires Inv(s) && Runs(s, acts)
    ensures Inv(After(s, acts))
    decreases acts
  {
    if acts != [] {
      StepKeepsInv(s, acts[0]);
      RunKeepsInv(Apply(s, acts[0]), acts[1..]);
    }
  }

  ghost predicate Reachable(s: State) {
    exists acts :: Runs(Init(), acts) && After(Init(), acts) == s
  }

  lemma {:induction false} RunsSnoc(s: State, acts: seq<Action>, a: Action)
    requires Runs(s, acts) && Enabled(After(s, acts), a)
    ensures Runs(s, acts + [a]) && After(s, acts + [a]) == Apply(After(s, acts), a)
    decreases acts
  {
    if acts == [] {
      assert Runs(Apply(s, a), []);
      assert ([a])[1..] == [];
    } else {
      RunsSnoc(Apply(s, acts[0]), acts[1..], a);
      assert (acts + [a])[1..] == acts[1..] + [a];
    }
  }

  lemma ReachableStep(s: State, a: Action)
    requires Reachable(s) && Enabled(s, a)
    ensures Reachable(Apply(s, a))
  {
    var acts :| Runs(Init(), acts) && After(Init(), acts) == s;
    RunsSnoc(Init(), acts, a);
  }

  lemma ReachableInv(s: State)
    requires Reachable(s)
    ensures Inv(s)
  {
    var acts :| Runs(Init(), acts) && After(Init(), acts) == s;
    RunKeepsInv(Init(), acts);
  }

  // ----- one default

  /** The default rows of a user. */
  function Defaults(rows: Table, userId: int): set<int> {
    set id | id in rows && rows[id].userId == userId && rows[id].isDefault
  }

  /** Under any interleaving of address operations, a user has at most one default address. */
  lemma AtMostOneDefault(acts: seq<Action>, i: int, j: int, userId: int)
    requires Runs(Init(), acts)
    requires i in Defaults(After(Init(), acts).rows, userId) && j in Defaults(After(Init(), acts).rows, userId)
    ensures i == j
  {
    RunKeepsInv(Init(), acts);
  }

  /** A committed default request leaves the user with one default, a row it wrote. */
  lemma CommitInstalls(s: State, p: int) returns (d: int)
    requires Inv(s) && p in s.txs && s.txs[p].stage == Wrote && s.txs[p].request.isDefault
    ensures d in s.txs[p].writes && s.txs[p].writes[d].isDefault
    ensures Defaults(Apply(s, Commit(p)).rows, s.txs[p].userId) == {d}
  {
    StepKeepsInv(s, Commit(p));
    assert Claims(s.txs[p]);
    d :| d in s.txs[p].writes && s.txs[p].writes[d].isDefault;
    var rows := Apply(s, Commit(p)).rows;
    var userId := s.txs[p].userId;
    assert rows[d] == s.txs[p].writes[d] && rows[d].userId == userId;
    assert forall id :: id in Defaults(rows, userId) ==> id == d;
    assert d in Defaults(rows, userId);
  }

  /** The action deletes the user's default row, or commits the change of that very row to be no default. */
  ghost predicate Resigns(s: State, a: Action, userId: int)
    requires Enabled(s, a)
  {
    || (a.Delete? && a.id in Defaults(s.rows, userId))
    || (a.Commit? && var r := s.txs[a.pid].request; r.Change? && !r.isDefault && r.id in Defaults(s.rows, userId))
  }

  /** What a committed request that installs no default does to the default rows. */
  lemma PlainCommit(s: State, p: int, userId: int)
    requires Inv(s) && p in s.txs && s.txs[p].stage == Wrote && !s.txs[p].request.isDefault
    ensures var rows', r := Apply(s, Commit(p)).rows, s.txs[p].request;
            Defaults(rows', userId) == if r.Change? then Defaults(s.rows, userId) - {r.id} else Defaults(s.rows, userId)
  {
    var t, rows' := s.txs[p], Apply(s, Commit(p)).rows;
    assert !Claims(t) && PlainRows(t, s.rows);
    forall id
      ensures id in Defaults(rows', userId)
              <==> id in Defaults(s.rows, userId) && (t.request.Change? ==> id != t.request.id)
    {
      if id in t.writes {
        assert !t.writes[id].isDefault;
      }
    }
  }

  /** A step leaves a user who has a default without one if and only if it resigns it. */
  lemma LostExactlyWhenResigned(s: State, a: Action, userId: int)
    requires Reachable(s) && Enabled(s, a) && Defaults(s.rows, userId) != {}
    ensures Defaults(Apply(s, a).rows, userId) == {} <==> Resigns(s, a, userId)
  {
    ReachableInv(s);
    IntSets.NonEmpty(Defaults(s.rows, userId));
    var d: int :| d in Defaults(s.rows, userId);
    assert forall x :: x in Defaults(s.rows, userId) ==> x == d;
    assert Defaults(s.rows, userId) == {d};
    if a.Commit? && s.txs[a.pid].request.isDefault {
      DefaultCommit(s, a.pid, userId, d);
    } else if a.Commit? {
      PlainCommit(s, a.pid, userId);
    } else if a.Delete? && a.id == d {
      assert Defaults(Apply(s, a).rows, userId) == {};
    } else {
      assert d in Defaults(Apply(s, a).rows, userId);
    }
  }

  lemma DefaultCommit(s: State, p: int, userId: int, d: int)
    requires Inv(s) && p in s.txs && s.txs[p].stage == Wrote && s.txs[p].request.isDefault
    requires d in Defaults(s.rows, userId)
    ensures Defaults(Apply(s, Commit(p)).rows, userId) != {}
  {
    if d in s.txs[p].writes {
      assert s.owners[d] == userId;
      var d' := CommitInstalls(s, p);
    } else {
      assert d in Defaults(Apply(s, Commit(p)).rows, userId);
    }
  }

  /** No step of the run resigns the user's default. */
  ghost predicate Keeps(s: State, acts: seq<Action>, userId: int)
    requires Runs(s, acts)
    decreases acts
  {
    acts == [] || (!Resigns(s, acts[0], userId) && Keeps(Apply(s, acts[0]), acts[1..], userId))
  }

  /**
   A user's default is never lost on the way from one row to another: in every run in which the default row is
   neither deleted nor itself changed to be none, a user who has a default has one all the time.
   */
  lemma {:induction false} DefaultNeverLost(s: State, acts: seq<Action>, userId: int)
    requires Reachable(s) && Runs(s, acts) && Keeps(s, acts, userId) && Defaults(s.rows, userId) != {}
    ensures Defaults(After(s, acts).rows, userId) != {}
    decreases acts
  {
    if acts != [] {
      LostExactlyWhenResigned(s, acts[0], userId);
      ReachableStep(s, acts[0]);
      DefaultNeverLost(Apply(s, acts[0]), acts[1..], userId);
    }
  }

  // ----- other users

  /** The user on whose behalf an action is taken. */
  ghost function Actor(s: State, a: Action): int
    requires Enabled(s, a)
  {
    match a
    case Begin(_, userId, _) => userId
    case Delete(userId, _) => userId
    case _ => s.txs[a.pid].userId
  }

  /** No action in the run is taken for the user. */
  ghost predicate Idle(s: State, acts: seq<Action>, userId: int)
    requires Runs(s, acts)
    decreases acts
  {
    acts == [] || (Actor(s, acts[0]) != userId && Idle(Apply(s, acts[0]), acts[1..], userId))
  }

  function RowsOf(rows: Table, userId: int): Table {
    map id | id in rows && rows[id].userId == userId :: rows[id]
  }

  lemma OthersStep(s: State, a: Action, userId: int)
    requires Inv(s) && Enabled(s, a) && Actor(s, a) != userId
    ensures RowsOf(Apply(s, a).rows, userId) == RowsOf(s.rows, userId)
  {
    var s' := Apply(s, a);
    if a.Commit? {
      assert OwnRows(s.txs[a.pid], s.owners);
    }
    forall id
      ensures id in RowsOf(s'.rows, userId) <==> id in RowsOf(s.rows, userId)
      ensures id in RowsOf(s.rows, userId) ==> s'.rows[id] == s.rows[id]
    {}
    assert RowsOf(s'.rows, userId).Keys == RowsOf(s.rows, userId).Keys;
  }

  /** Whatever others do, and however they interleave, the rows of a user who does nothing stay as they are. */
  lemma {:induction false} OthersRowsUntouched(s: State, acts: seq<Action>, userId: int)
    requires Inv(s) && Runs(s, acts) && Idle(s, acts, userId)
    ensures RowsOf(After(s, acts).rows, userId) == RowsOf(s.rows, userId)
    decreases acts
  {
    if acts != [] {
      OthersStep(s, acts[0], userId);
      StepKeepsInv(s, acts[0]);
      OthersRowsUntouched(Apply(s, acts[0]), acts[1..], userId);
    }
  }

  // ----- a transaction that does not commit leaves no trace

  predicate By(a: Action, q: int) { !a.Delete? && a.pid == q }

  /** The run without the steps of transaction `q`. */
  function Without(acts: seq<Action>, q: int): seq<Action> {
    if acts == [] then []
    else if By(acts[0], q) then Without(acts[1..], q)
    else [acts[0]] + Without(acts[1..], q)
  }

  /** `u` is `s` as it would be had `q` never been there. */
  ghost predicate Erased(s: State, u: State, q: int) {
    && u.rows == s.rows && u.txs == s.txs - {q}
    && u.owners.Keys <= s.owners.Keys && u.ended.Keys <= s.ended.Keys
  }

  /** Fewer transactions stand in fewer ways. */
  lemma FewerLocks(s: State, u: State, q: int)
    requires Erased(s, u, q)
    ensures forall p, id :: LockedByOther(u.txs, p, id) ==> LockedByOther(s.txs, p, id)
    ensures forall id :: Locked(u.txs, id) ==> Locked(s.txs, id)
    ensures forall p :: p in u.txs && Contended(u.txs, p) ==> Contended(s.txs, p)
  {
    assert forall p :: p in u.txs ==> p in s.txs && u.txs[p] == s.txs[p];
  }

  lemma TargetErased(s: State, u: State, q: int, p: int, id: int)
    requires Erased(s, u, q) && p in u.txs && p != q && Target(s, p, id)
    ensures Target(u, p, id)
  {
    FewerLocks(s, u, q);
  }

  lemma EnabledErased(s: State, u: State, q: int, a: Action)
    requires Erased(s, u, q) && Enabled(s, a) && !By(a, q)
    ensures Enabled(u, a)
  {
    FewerLocks(s, u, q);
    if a.Write? {
      TargetErased(s, u, q, a.pid, a.id);
    }
    if a.Violate? {
      var id :| Target(s, a.pid, id) && Barred(s.rows, s.txs[a.pid], id);
      TargetErased(s, u, q, a.pid, id);
    }
  }

  lemma ErasedStep(s: State, u: State, q: int, a: Action)
    requires Erased(s, u, q) && Enabled(s, a) && a != Commit(q)
    ensures By(a, q) ==> Erased(Apply(s, a), u, q)
    ensures !By(a, q) ==> Enabled(u, a) && Erased(Apply(s, a), Apply(u, a), q)
  {
    if !By(a, q) {
      EnabledErased(s, u, q, a);
    }
  }

  lemma {:induction false} ErasedRun(s: State, u: State, q: int, acts: seq<Action>)
    requires Erased(s, u, q) && Runs(s, acts) && Commit(q) !in acts
    ensures Runs(u, Without(acts, q)) && Erased(After(s, acts), After(u, Without(acts, q)), q)
    decreases acts
  {
    if acts != [] {
      var a, rest := acts[0], acts[1..];
      assert a != Commit(q) && Commit(q) !in rest;
      ErasedStep(s, u, q, a);
      if By(a, q) {
        ErasedRun(Apply(s, a), u, q, rest);
      } else {
        ErasedRun(Apply(s, a), Apply(u, a), q, rest);
        assert ([a] + Without(rest, q))[1..] == Without(rest, q);
      }
    }
  }

  /**
   Every run in which a transaction does not commit, however far it got, is a run without it, with the
   same committed rows.
   */
  lemma AbortedLeavesNoTrace(acts: seq<Action>, q: int)
    requires Runs(Init(), acts) && Commit(q) !in acts
    ensures Runs(Init(), Without(acts, q))
    ensures After(Init(), Without(acts, q)).rows == After(Init(), acts).rows
  {
    assert Init().txs - {q} == Init().txs;
    ErasedRun(Init(), Init(), q, acts);
  }

  // ----- losing the race for the default

  /** The transaction is not committed and never will be. */
  ghost predicate Out(s: State, q: int) {
    (q in s.txs && s.txs[q].stage == Failed) || (q in s.ended && !s.ended[q] && q !in s.txs)
  }

  lemma {:induction false} OutForever(s: State, acts: seq<Action>, q: int)
    requires Runs(s, acts) && Out(s, q)
    ensures Out(After(s, acts), q) && Commit(q) !in acts
    decreases acts
  {
    if acts != [] {
      OutForever(Apply(s, acts[0]), acts[1..], q);
      assert acts[0] != Commit(q);
    }
  }

  /** Until it violates the index, a transaction has not ended. */
  lemma {:induction false} LoserCommitsNowhere(s: State, acts: seq<Action>, q: int)
    requires Inv(s) && Runs(s, acts) && Violate(q) in acts
    ensures q !in s.ended && Commit(q) !in acts
    decreases acts
  {
    var s' := Apply(s, acts[0]);
    StepKeepsInv(s, acts[0]);
    if acts[0] == Violate(q) {
      OutForever(s', acts[1..], q);
    } else {
      LoserCommitsNowhere(s', acts[1..], q);
    }
  }

  /**
   A transaction that loses the race for the default rolls back whole: in every run in which it violates
   the index it never commits, and the committed rows are those of the run without it.
   */
  lemma LoserRollsBackWhole(acts: seq<Action>, q: int)
    requires Runs(Init(), acts) && Violate(q) in acts
    ensures Commit(q) !in acts
    ensures Runs(Init(), Without(acts, q))
    ensures After(Init(), Without(acts, q)).rows == After(Init(), acts).rows
  {
    LoserCommitsNowhere(Init(), acts, q);
    AbortedLeavesNoTrace(acts, q);
  }

  /** The transaction is to install a default and its snapshot does not show row `d`. */
  ghost predicate Misses(s: State, q: int, d: int) {
    && q in s.txs && q !in s.ended && s.txs[q].request.isDefault
    && s.txs[q].stage.Clearing? && d !in s.txs[q].writes && !Knows(s.txs[q], d)
  }

  /** Row `d` is a default of the user in every state of the run. */
  ghost predicate StaysDefault(s: State, acts: seq<Action>, d: int, userId: int)
    requires Runs(s, acts)
    decreases acts
  {
    d in Defaults(s.rows, userId) && (acts == [] || StaysDefault(Apply(s, acts[0]), acts[1..], d, userId))
  }

  lemma MissesStep(s: State, a: Action, q: int, d: int)
    requires Inv(s) && Enabled(s, a) && Misses(s, q, d) && d in Defaults(s.rows, s.txs[q].userId)
    ensures a != Commit(q) && (Out(Apply(s, a), q) || Misses(Apply(s, a), q, d))
    ensures q in Apply(s, a).txs ==> Apply(s, a).txs[q].userId == s.txs[q].userId
  {
    if a.Write? && a.pid == q {
      assert Bars(s.rows, s.txs[q], a.id, d);
      assert false;
    }
  }

  /** A transaction whose snapshot misses the default cannot commit while that row is the default. */
  lemma {:induction false} MissingShutsOut(s: State, acts: seq<Action>, q: int, d: int, userId: int)
    requires Inv(s) && Runs(s, acts) && Misses(s, q, d) && s.txs[q].userId == userId && StaysDefault(s, acts, d, userId)
    ensures Commit(q) !in acts
    decreases acts
  {
    if acts != [] {
      var a, s' := acts[0], Apply(s, acts[0]);
      MissesStep(s, a, q, d);
      StepKeepsInv(s, a);
      if Out(s', q) {
        OutForever(s', acts[1..], q);
      } else {
        MissingShutsOut(s', acts[1..], q, d, userId);
      }
    }
  }

  /**
   Two requests of one user race for the default, and `p` has inserted its row as the default while `q` has
   taken its snapshot. Once `p` commits, `q` commits in no run in which that row stays the default.
   */
  lemma SecondLosesTheRace(s: State, p: int, q: int, d: int, acts: seq<Action>)
    requires Reachable(s) && p in s.txs && q in s.txs && p != q && s.txs[p].userId == s.txs[q].userId
    requires s.txs[p].stage == Wrote && d in s.txs[p].writes && s.txs[p].writes[d].isDefault && d !in s.rows
    requires s.txs[q].request.isDefault && s.txs[q].stage.Clearing?
    requires Runs(Apply(s, Commit(p)), acts)
    requires StaysDefault(Apply(s, Commit(p)), acts, d, s.txs[q].userId)
    ensures Commit(q) !in acts
  {
    ReachableInv(s);
    StepKeepsInv(s, Commit(p));
    assert Misses(Apply(s, Commit(p)), q, d);
    MissingShutsOut(Apply(s, Commit(p)), acts, q, d, s.txs[q].userId);
  }

  /** Two requests for a first default address can meet: one violates the index. */
  lemma RaceCanBeLost(userId: int, content: string)
    ensures exists acts :: Runs(Init(), acts) && Violate(1) in acts
  {
    var r := Add(content, true);
    var s, acts := Init(), [];
    var script := [
      Begin(0, userId, r), Snapshot(0), Begin(1, userId, r), Snapshot(1), Write(0, 0), Commit(0), Violate(1)];
    var row := Row(userId, content, true);
    for i := 0 to 7
      invariant Runs(Init(), acts) && After(Init(), acts) == s && acts == script[..i]
      invariant s.rows == (if i <= 5 then map[] else map[0 := row])
      invariant i == 0 ==> s == Init()
      invariant i <= 5 ==> s.ended == map[]
      invariant i <= 4 ==> s.owners == map[]
      invariant i == 1 ==> s.txs == map[0 := Txn(userId, r, Begun, map[])]
      invariant i == 2 ==> s.txs == map[0 := Txn(userId, r, Clearing({}), map[])]
      invariant i == 3 ==> s.txs == map[0 := Txn(userId, r, Clearing({}), map[]), 1 := Txn(userId, r, Begun, map[])]
      invariant i == 4 ==>
                  s.txs == map[0 := Txn(userId, r, Clearing({}), map[]), 1 := Txn(userId, r, Clearing({}), map[])]
      invariant i == 5 ==>
                  s.txs == map[0 := Txn(userId, r, Wrote, map[0 := row]), 1 := Txn(userId, r, Clearing({}), map[])]
      invariant i == 6 ==> s.txs == map[1 := Txn(userId, r, Clearing({}), map[])] && s.owners == map[0 := userId]
      invariant i == 5 ==> s.owners == map[0 := userId]
    {
      if i == 6 {
        assert Target(s, 1, 1) && Bars(s.rows, s.txs[1], 1, 0);
      }
      if i == 1 || i == 3 {
        assert IdsOf(s.rows, userId) == {};
      }
      RunsSnoc(Init(), acts, script[i]);
      acts := acts + [script[i]];
      s := Apply(s, script[i]);
    }
    assert acts[6] == Violate(1);
  }
}
