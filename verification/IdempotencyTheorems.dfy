/**
 What the idempotency protocol guarantees over whole runs, and exactly when.
 */
module IdempotencyTheorems {
  import opened Wrappers
  import opened IdempotencyMachine

  ghost predicate Runs(c: Config, s: State, acts: seq<Action>)
    decreases acts
  {
    acts == [] || (Enabled(s, acts[0]) && Runs(c, Apply(c, s, acts[0]), acts[1..]))
  }

  ghost function After(c: Config, s: State, acts: seq<Action>): State
    requires Runs(c, s, acts)
    decreases acts
  {
    if acts == [] then s else After(c, Apply(c, s, acts[0]), acts[1..])
  }

  /** In every state of the run, every execution under way began less than `d` ago. */
  ghost predicate TimelyRun(c: Config, d: int, s: State, acts: seq<Action>)
    requires Runs(c, s, acts)
    decreases acts
  {
    Timely(d, s) && (acts == [] || TimelyRun(c, d, Apply(c, s, acts[0]), acts[1..]))
  }

  /** The run can be extended by one action. */
  lemma {:induction false} Snoc(c: Config, d: int, s: State, acts: seq<Action>, a: Action)
    requires Runs(c, s, acts) && Enabled(After(c, s, acts), a)
    ensures Runs(c, s, acts + [a]) && After(c, s, acts + [a]) == Apply(c, After(c, s, acts), a)
    ensures TimelyRun(c, d, s, acts) && Timely(d, Apply(c, After(c, s, acts), a)) ==> TimelyRun(c, d, s, acts + [a])
    decreases acts
  {
    if acts == [] {
      assert ([a])[1..] == [];
      assert Runs(c, Apply(c, s, a), []);
    } else {
      Snoc(c, d, Apply(c, s, acts[0]), acts[1..], a);
      assert (acts + [a])[1..] == acts[1..] + [a];
    }
  }

  // ----- spacing

  lemma {:induction false} SpacingRun(c: Config, s: State, acts: seq<Action>)
    requires c.inProgressTTL <= c.completedTTL
    requires Backed(c, s) && Spaced(c, s.log) && Runs(c, s, acts)
    ensures Spaced(c, After(c, s, acts).log)
    decreases acts
  {
    if acts != [] {
      SpacingStep(c, s, acts[0]);
      SpacingRun(c, Apply(c, s, acts[0]), acts[1..]);
    }
  }

  /** A completed record that dies before its reservation would have lets a second execution in early. */
  lemma ShortCompletionOverlaps(c: Config) returns (acts: seq<Action>)
    requires 0 < c.completedTTL < c.inProgressTTL
    ensures Runs(c, Init(), acts) && !Spaced(c, After(c, Init(), acts).log)
  {
    var s := Init();
    acts := [];
    var script := [
      Reserve(0, "k", "s", "h", 0), Finish(0, NO_RESPONSE), Fetch(0), Write(0, 0),
      Tick(c.completedTTL), Reserve(1, "k", "s", "h", 0)];
    for i := 0 to 6
      invariant Runs(c, Init(), acts) && After(c, Init(), acts) == s
      invariant i <= 4 ==> s.now == 0
      invariant i > 4 ==> s.now == c.completedTTL
      invariant i == 0 ==> s == Init()
      invariant i == 1 ==> 0 in s.flights && s.flights[0] == Running("k", "h", 0) && 1 !in s.flights
      invariant i == 2 ==> 0 in s.flights && s.flights[0] == Finished("k", "h", 0, NO_RESPONSE) && 1 !in s.flights
      invariant i == 3 ==> 0 in s.flights && s.flights[0].Writing? && s.flights[0].key == "k" && 1 !in s.flights
      invariant 1 <= i <= 3 ==> Live(s.store, "k", s.now) && s.log == [Started("k", 0, 0, "h")]
      invariant i >= 4 ==> 1 !in s.flights || i == 6
      invariant 4 <= i <= 5 ==> "k" in s.store && s.store["k"].expiresAt == c.completedTTL
      invariant i >= 4 ==> |s.log| >= 2 && s.log[0] == Started("k", 0, 0, "h")
      invariant i >= 4 ==> s.log[1].Wrote?
      invariant 4 <= i <= 5 ==> |s.log| == 2
      invariant i == 6 ==> |s.log| == 3 && s.log[2] == Started("k", c.completedTTL, 1, "h")
    {
      Snoc(c, 0, Init(), acts, script[i]);
      acts := acts + [script[i]];
      s := Apply(c, s, script[i]);
    }
  }

  /**
   Executions of one key start at least InProgressTTL apart, and none starts within CompletedTTL
   of a completion, in every run: exactly when CompletedTTL is not the shorter of the two.
   */
  lemma SpacedExactlyWhen(c: Config)
    requires c.inProgressTTL > 0 && c.completedTTL > 0
    ensures (forall acts :: Runs(c, Init(), acts) ==> Spaced(c, After(c, Init(), acts).log))
            <==> c.inProgressTTL <= c.completedTTL
  {
    if c.inProgressTTL <= c.completedTTL {
      forall acts | Runs(c, Init(), acts)
        ensures Spaced(c, After(c, Init(), acts).log)
      {
        SpacingRun(c, Init(), acts);
      }
    } else {
      var acts := ShortCompletionOverlaps(c);
    }
  }

  // ----- replays

  lemma {:induction false} TimelyRunKeeps(c: Config, d: int, s: State, acts: seq<Action>)
    requires d <= c.inProgressTTL && TimelyInv(c, s)
    requires Runs(c, s, acts) && TimelyRun(c, d, s, acts)
    ensures TimelyInv(c, After(c, s, acts))
    decreases acts
  {
    if acts != [] {
      TimelyStep(c, d, s, acts[0]);
      TimelyRunKeeps(c, d, Apply(c, s, acts[0]), acts[1..]);
    }
  }

  /** While executions end before their reservations expire, a key has at most one execution under way. */
  lemma OneExecutionPerKey(c: Config, acts: seq<Action>, p: int, q: int)
    requires Runs(c, Init(), acts) && TimelyRun(c, c.inProgressTTL, Init(), acts)
    requires p in After(c, Init(), acts).flights && Executing(After(c, Init(), acts).flights[p])
    requires q in After(c, Init(), acts).flights && Executing(After(c, Init(), acts).flights[q])
    requires After(c, Init(), acts).flights[p].key == After(c, Init(), acts).flights[q].key
    ensures p == q
  {
    TimelyRunKeeps(c, c.inProgressTTL, Init(), acts);
  }

  /** An execution that outlives its reservation runs beside the next one of its key. */
  lemma OverrunOverlaps(c: Config, d: int) returns (acts: seq<Action>)
    requires 0 < c.inProgressTTL < d
    ensures Runs(c, Init(), acts) && TimelyRun(c, d, Init(), acts) && !Alone(After(c, Init(), acts))
  {
    var ip := c.inProgressTTL;
    var s := Init();
    acts := [];
    var script := [Reserve(0, "k", "s", "a", 0), Tick(ip), Reserve(1, "k", "s", "b", 0)];
    for i := 0 to 3
      invariant Runs(c, Init(), acts) && After(c, Init(), acts) == s && TimelyRun(c, d, Init(), acts)
      invariant s.now == if i <= 1 then 0 else ip
      invariant i == 0 ==> s == Init()
      invariant 1 <= i <= 2 ==> s.flights == map[0 := Running("k", "a", 0)]
      invariant 1 <= i <= 2 ==> "k" in s.store && s.store["k"].expiresAt == ip
      invariant i == 3 ==> s.flights == map[0 := Running("k", "a", 0), 1 := Running("k", "b", ip)]
    {
      Snoc(c, d, Init(), acts, script[i]);
      acts := acts + [script[i]];
      s := Apply(c, s, script[i]);
    }
    assert s.flights[0].key == s.flights[1].key;
  }

  /**
   Say every execution ends within `d` of its reservation. Then a key has at most one execution under way in
   every such run: exactly when `d` does not exceed InProgressTTL.
   */
  lemma AloneExactlyWhen(c: Config, d: int)
    requires c.inProgressTTL > 0
    ensures (forall acts ::
               Runs(c, Init(), acts) && TimelyRun(c, d, Init(), acts) ==> Alone(After(c, Init(), acts)))
            <==> d <= c.inProgressTTL
  {
    if d <= c.inProgressTTL {
      forall acts | Runs(c, Init(), acts) && TimelyRun(c, d, Init(), acts)
        ensures Alone(After(c, Init(), acts))
      {
        TimelyRunKeeps(c, d, Init(), acts);
      }
    } else {
      var acts := OverrunOverlaps(c, d);
    }
  }

  /**
   An execution that outlives its reservation completes over a later one: the first request's
   response is replayed to a repeat of the second request, which is still running.
   */
  lemma OverrunReplaysForeignResponse(c: Config, d: int) returns (acts: seq<Action>)
    requires 0 < c.inProgressTTL < d && c.completedTTL > 0
    ensures Runs(c, Init(), acts) && TimelyRun(c, d, Init(), acts) && !Faithful(After(c, Init(), acts).log)
  {
    var ip, own := c.inProgressTTL, Response(1, "", map[]);
    var first, second := Started("k", 0, 0, "a"), Started("k", ip, 1, "b");
    var wrote := Wrote("k", ip, 0, "a", 0, own);
    var s := Init();
    acts := [];
    var script := [
      Reserve(0, "k", "s", "a", 0), Tick(ip), Reserve(1, "k", "s", "b", 0), Finish(0, own),
      Fetch(0), Write(0, 0), Reserve(2, "k", "s", "b", 0), Look(2)];
    for i := 0 to 8
      invariant Runs(c, Init(), acts) && After(c, Init(), acts) == s && TimelyRun(c, d, Init(), acts)
      invariant s.now == if i <= 1 then 0 else ip
      invariant i == 0 ==> s == Init()
      invariant 1 <= i <= 2 ==> s.flights == map[0 := Running("k", "a", 0)] && s.log == [first]
      invariant 1 <= i <= 2 ==> "k" in s.store && s.store["k"].expiresAt == ip
      invariant 3 <= i <= 5 ==> s.log == [first, second] && Live(s.store, "k", s.now) && 2 !in s.flights
      invariant 3 <= i <= 5 ==> s.store["k"].record == Reservation("k", "s", "b", 0)
      invariant i == 3 ==> s.flights == map[0 := Running("k", "a", 0), 1 := Running("k", "b", ip)]
      invariant i == 4 ==> s.flights == map[0 := Finished("k", "a", 0, own), 1 := Running("k", "b", ip)]
      invariant i == 5 ==>
                  s.flights == map[0 := Writing("k", "a", 0, own, Reservation("k", "s", "b", 0)),
                                   1 := Running("k", "b", ip)]
      invariant i == 6 ==> s.flights == map[1 := Running("k", "b", ip)]
      invariant 6 <= i <= 7 ==> Live(s.store, "k", s.now) && s.log == [first, second, wrote]
      invariant 6 <= i <= 7 ==> s.store["k"].record == Completion(Reservation("k", "s", "b", 0), own, 0)
      invariant i == 7 ==> s.flights == map[1 := Running("k", "b", ip), 2 := Looking("k", "b")]
      invariant i == 8 ==> s.log == [first, second, wrote, Replayed("k", "b", own)]
    {
      Snoc(c, d, Init(), acts, script[i]);
      acts := acts + [script[i]];
      s := Apply(c, s, script[i]);
    }
    ForeignCompletion(first, second, wrote);
    assert s.log[..3] == [first, second, wrote];
    assert s.log[3].Replayed?;
  }

  lemma ForeignCompletion(first: Event, second: Event, wrote: Event)
    requires second.Started? && wrote.Wrote? && wrote.key == second.key && wrote.pid != second.pid
    ensures forall h, r :: !CompletedBy([first, second, wrote], second.key, h, r)
  {
    var log := [first, second, wrote];
    assert log == [first, second] + [wrote] && [first, second] == [first] + [second];
    LatestSnoc([first, second], wrote, second.key, false);
    LatestSnoc([first], second, second.key, false);
    LatestSnoc([first, second], wrote, second.key, true);
  }

  /**
   Say every execution ends within `d` of its reservation. Then every replay carries the
   response of the latest execution of its key, to a request of the same hash, in every such
   run: exactly when `d` does not exceed InProgressTTL.
   */
  lemma FaithfulExactlyWhen(c: Config, d: int)
    requires c.inProgressTTL > 0 && c.completedTTL > 0
    ensures (forall acts ::
               Runs(c, Init(), acts) && TimelyRun(c, d, Init(), acts) ==> Faithful(After(c, Init(), acts).log))
            <==> d <= c.inProgressTTL
  {
    if d <= c.inProgressTTL {
      forall acts | Runs(c, Init(), acts) && TimelyRun(c, d, Init(), acts)
        ensures Faithful(After(c, Init(), acts).log)
      {
        TimelyRunKeeps(c, d, Init(), acts);
      }
    } else {
      var acts := OverrunReplaysForeignResponse(c, d);
    }
  }
}
