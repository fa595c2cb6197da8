/**
 The consume loop of one reader: parse, handle with retries, dead-letter what fails, commit.
 `model` is the partition as the group protocol sees it.
 */
module ConsumerLoop {
  import opened Wrappers
  import opened ConsumerMachine
  import ConsumerRetry

  /** What the world does with the message at an offset; whether the commit is answered is moot, errors are logged. */
  datatype Fate = Fate(parses: bool, outcome: ConsumerRetry.Calls, commitOk: bool)

  /** Call `n` is made and succeeds. */
  ghost predicate SucceedsAt(outcome: ConsumerRetry.Calls, retryable: string -> bool, n: nat) {
    outcome(n).None? && ConsumerRetry.KeptFailing(outcome, retryable, n)
  }

  /** The message went through its handler: some call succeeded, or none was allowed. */
  ghost predicate Succeeds(f: Fate, retryable: string -> bool, maxRetries: int) {
    && f.parses
    && (maxRetries < 0 || exists n: nat :: n <= maxRetries && SucceedsAt(f.outcome, retryable, n))
  }

  class Consumer {
    const retryable: string -> bool
    const maxRetries: int
    const backoff: nat
    var committed: Option<nat>
    var next: nat
    var settled: map<nat, Settlement>
    ghost var model: State

    /** The reader is between messages of a partition in a state the group can reach. */
    ghost predicate Valid()
      reads this
    {
      && model.committed == committed && model.settled == settled
      && 0 in model.readers && model.readers[0] == Idle(next)
      && Reachable(model)
    }

    /** A reader joins the group: it resumes at the committed offset, or at the end when there is none. */
    constructor (ghost partition: State, committed: Option<nat>, end: nat, settled: map<nat, Settlement>,
                 retryable: string -> bool, maxRetries: int, backoff: nat)
      requires Reachable(partition) && 0 !in partition.readers
      requires partition.committed == committed && partition.settled == settled && |partition.log| == end
      ensures Valid() && this.committed == committed && this.settled == settled && model.log == partition.log
      ensures next == if committed.Some? then committed.value else end
      ensures this.retryable == retryable && this.maxRetries == maxRetries && this.backoff == backoff
    {
      this.retryable, this.maxRetries, this.backoff := retryable, maxRetries, backoff;
      this.committed, this.settled := committed, settled;
      next := if committed.Some? then committed.value else end;
      ReachableStep(partition, Join(0));
      model := Apply(partition, Join(0));
    }

    ghost method Take(a: Action)
      requires Reachable(model) && Enabled(model, a)
      modifies this`model
      ensures model == Apply(old(model), a) && Reachable(model)
    {
      ReachableStep(model, a);
      model := Apply(model, a);
    }

    /** The message was settled, and as handled exactly when its handler succeeds. */
    ghost predicate SettledAs(o: nat, f: Fate)
      reads this
    {
      o in settled && (settled[o] == Handled <==> Succeeds(f, retryable, maxRetries))
    }

    /** Parse and handle: handled, or a dead-letter publish was attempted. */
    method Process(f: Fate) returns (how: Settlement)
      ensures how == Handled <==> Succeeds(f, retryable, maxRetries)
    {
      if !f.parses { return DeadLettered; }
      var err, calls, slept := ConsumerRetry.HandleWithRetry(f.outcome, retryable, maxRetries, backoff);
      if err.Some? {
        // Every call made failed, and no later one was due.
        assert forall n: nat :: n <= maxRetries && SucceedsAt(f.outcome, retryable, n) ==> n < calls;
        return DeadLettered;
      }
      if maxRetries >= 0 {
        assert SucceedsAt(f.outcome, retryable, calls - 1);
      }
      return Handled;
    }

    /** One turn of the loop on a fetched message. */
    method ConsumeOne(f: Fate)
      requires Valid() && next < |model.log|
      modifies this
      ensures Valid() && model.log == old(model.log) && next == old(next) + 1
      ensures SettledAs(old(next), f)
      ensures settled == old(settled)[old(next) := settled[old(next)]]
      ensures committed == if f.commitOk then Some(next) else old(committed)
    {
      var how := Process(f);
      Follow(how, f.commitOk);
      settled := settled[next := how];
      if f.commitOk { committed := Some(next + 1); }
      next := next + 1;
    }

    /** The protocol fetches, settles and commits the next message. */
    ghost method Follow(how: Settlement, commitOk: bool)
      requires Valid() && next < |model.log|
      modifies this`model
      ensures Reachable(model) && model.log == old(model.log) && model.settled == settled[next := how]
      ensures model.committed == if commitOk then Some(next + 1) else committed
      ensures 0 in model.readers && model.readers[0] == Idle(next + 1)
    {
      Take(Fetch(0));
      Take(Settle(0, how));
      Take(Commit(0, commitOk));
    }

    /** The loop, over what the partition holds, until a shutdown is seen before the `stop`-th turn. */
    method Consume(fates: nat -> Fate, stop: nat, end: nat)
      requires Valid() && |model.log| == end && next <= end
      modifies this
      ensures Valid() && model.log == old(model.log)
      ensures next == if old(next) + stop < end then old(next) + stop else end
      ensures forall o :: old(next) <= o < next ==> SettledAs(o, fates(o))
      ensures forall o :: o in old(settled) && !(old(next) <= o < next) ==>
                            o in settled && settled[o] == old(settled)[o]
      ensures || committed == old(committed)
              || exists o :: old(next) <= o < next && fates(o).commitOk && committed == Some(o + 1)
    {
      var turns := 0;
      var start := next;
      while turns < stop && next < end
        invariant Valid() && model.log == old(model.log)
        invariant 0 <= turns <= stop && next == start + turns && next <= end
        invariant forall o :: start <= o < next ==> SettledAs(o, fates(o))
        invariant forall o :: o in old(settled) && !(start <= o < next) ==>
                                o in settled && settled[o] == old(settled)[o]
        invariant || committed == old(committed)
                  || exists o :: start <= o < next && fates(o).commitOk && committed == Some(o + 1)
      {
        ConsumeOne(fates(next));
        turns := turns + 1;
      }
    }
  }
}
