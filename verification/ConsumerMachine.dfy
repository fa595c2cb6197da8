/**
 One partition read by the members of a consumer group: fetch without commit, settle the message,
 commit by hand. Members may join, stop or lose their commits at any point, and a member that was
 fenced off may still be at work.
 */
module ConsumerMachine {
  import opened Wrappers
  import opened OutboxEnvelope
  import IntSets

  /** Where a member stands: before `next`, with the message at `offset` in hand, or done with it. */
  datatype Reader = Idle(next: nat) | Holding(offset: nat) | Done(offset: nat)

  /** How a message left the consumer's hands; a dead-letter publish is attempted, its error discarded. */
  datatype Settlement = Handled | DeadLettered

  /**
   `committed` is the group's offset on the broker, absent until the first commit. `blind` is the
   end of the log when a member last joined without it: StartOffset is LastOffset.
   */
  datatype State = State(
    log: seq<Message>,
    committed: Option<nat>,
    readers: map<int, Reader>,
    settled: map<nat, Settlement>,
    blind: nat)

  datatype Action =
    | Append(messages: seq<Message>)
    | Join(reader: int)
    | Fetch(reader: int)
    | Settle(reader: int, how: Settlement)
    | Commit(reader: int, ok: bool)
    | Leave(reader: int)

  function Init(): State { State([], None, map[], map[], 0) }

  predicate Enabled(s: State, a: Action) {
    match a
    case Append(_) => true
    case Join(r) => r !in s.readers
    case Fetch(r) => r in s.readers && s.readers[r].Idle? && s.readers[r].next < |s.log|
    case Settle(r, _) => r in s.readers && s.readers[r].Holding?
    case Commit(r, _) => r in s.readers && s.readers[r].Done?
    case Leave(r) => r in s.readers
  }

  function Apply(s: State, a: Action): State
    requires Enabled(s, a)
  {
    match a
    case Append(messages) => s.(log := s.log + messages)
    case Join(r) =>
      if s.committed.Some? then s.(readers := s.readers[r := Idle(s.committed.value)])
      else s.(readers := s.readers[r := Idle(|s.log|)], blind := |s.log|)
    case Fetch(r) => s.(readers := s.readers[r := Holding(s.readers[r].next)])
    case Settle(r, how) =>
      var o := s.readers[r].offset;
      s.(readers := s.readers[r := Done(o)], settled := s.settled[o := how])
    case Commit(r, ok) =>
      var o := s.readers[r].offset;
      s.(readers := s.readers[r := Idle(o + 1)], committed := if ok then Some(o + 1) else s.committed)
    case Leave(r) => s.(readers := s.readers - {r})
  }

  /** The end of what a member has behind it. */
  function Behind(r: Reader): nat {
    match r
    case Idle(next) => next
    case Holding(offset) => offset
    case Done(offset) => offset + 1
  }

  /** Every message from `blind` up to `end` was settled. */
  ghost predicate SettledUpTo(s: State, end: nat) {
    end <= |s.log| && forall o :: s.blind <= o < end ==> o in s.settled
  }

  ghost predicate Inv(s: State) {
    && s.blind <= |s.log|
    && (s.committed.Some? ==> SettledUpTo(s, s.committed.value))
    && (forall r :: r in s.readers ==> SettledUpTo(s, Behind(s.readers[r])))
    && (forall r :: r in s.readers && s.readers[r].Holding? ==> s.readers[r].offset < |s.log|)
    && (forall o :: o in s.settled ==> o < |s.log|)
  }

  lemma StepKeepsInv(s: State, a: Action)
    requires Inv(s) && Enabled(s, a)
    ensures Inv(Apply(s, a))
  {}

  ghost predicate Runs(s: State, acts: seq<Action>)
    decreases acts
  {
    acts == [] || (Enabled(s, acts[0]) && Runs(Apply(s, acts[0]), acts[1..]))
  }

  ghost function After(s: State, acts: seq<Action>): State
    requires Runs(s, acts)
    decreases acts
  {
    if acts == [] then s else After(Apply(s, acts[0]), acts[1..])
  }

  lemma {:induction false} RunKeepsInv(s: State, acts: seq<Action>)
    requires Inv(s) && Runs(s, acts)
    ensures Inv(After(s, acts))
    decreases acts
  {
    if acts != [] {
      StepKeepsInv(s, acts[0]);
      RunKeepsInv(Apply(s, acts[0]), acts[1..]);
    }
  }

  /**
   Across crashes, refetches and failed or late commits, every message below the committed offset
   was handled or dead-lettered, except those a member skipped by joining with no offset to start from.
   */
  lemma CommittedMeansSettled(acts: seq<Action>, o: nat)
    requires Runs(Init(), acts)
    requires After(Init(), acts).committed.Some? && o < After(Init(), acts).committed.value
    requires After(Init(), acts).blind <= o
    ensures After(Init(), acts).committed.value <= |After(Init(), acts).log|
    ensures o in After(Init(), acts).settled
  {
    RunKeepsInv(Init(), acts);
  }

  ghost predicate Reachable(s: State) {
    exists acts :: Runs(Init(), acts) && After(Init(), acts) == s
  }

  lemma {:induction false} RunsSnoc(s: State, acts: seq<Action>, a: Action)
    requires Runs(s, acts) && Enabled(After(s, acts), a)
    ensures Runs(s, acts + [a]) && After(s, acts + [a]) == Apply(After(s, acts), a)
    decreases acts
  {
    if acts == [] {
      assert Runs(Apply(s, a), []);
      assert ([a])[1..] == [];
    } else {
      RunsSnoc(Apply(s, acts[0]), acts[1..], a);
      assert (acts + [a])[1..] == acts[1..] + [a];
    }
  }

  lemma ReachableStep(s: State, a: Action)
    requires Reachable(s) && Enabled(s, a)
    ensures Reachable(Apply(s, a))
  {
    var acts :| Runs(Init(), acts) && After(Init(), acts) == s;
    RunsSnoc(Init(), acts, a);
  }

  lemma ReachableInv(s: State)
    requires Reachable(s)
    ensures Inv(s)
  {
    var acts :| Runs(Init(), acts) && After(Init(), acts) == s;
    RunKeepsInv(Init(), acts);
  }

  // ----- exactly which messages can be passed over

  /** The group has committed past the message and nobody settled it. */
  ghost predicate Missed(s: State, o: nat) {
    s.committed.Some? && o < s.committed.value && o !in s.settled
  }

  /** The run ends with the message passed over. */
  ghost predicate Misses(s: State, acts: seq<Action>, o: nat) {
    Runs(s, acts) && Missed(After(s, acts), o)
  }

  /** The message is settled, or the group has an offset and neither it nor any member is past the message. */
  ghost predicate Secured(s: State, o: nat) {
    || o in s.settled
    || (s.committed.Some? && s.committed.value <= o && forall r :: r in s.readers ==> Behind(s.readers[r]) <= o)
  }

  lemma SecuredStep(s: State, a: Action, o: nat)
    requires Enabled(s, a) && Secured(s, o)
    ensures Secured(Apply(s, a), o)
  {}

  lemma {:induction false} SecuredForever(s: State, acts: seq<Action>, o: nat)
    requires Runs(s, acts) && Secured(s, o)
    ensures Secured(After(s, acts), o)
    decreases acts
  {
    if acts != [] {
      SecuredStep(s, acts[0], o);
      SecuredForever(Apply(s, acts[0]), acts[1..], o);
    }
  }

  lemma MissesCons(s: State, a: Action, acts: seq<Action>, o: nat)
    requires Enabled(s, a) && Misses(Apply(s, a), acts, o)
    ensures Misses(s, [a] + acts, o)
  {
    assert ([a] + acts)[1..] == acts;
  }

  /** A member already past an unsettled message goes on to its next commit. */
  lemma PastReaderMisses(s: State, r: int, o: nat, m: Message) returns (acts: seq<Action>)
    requires Inv(s) && r in s.readers && o < Behind(s.readers[r]) && o !in s.settled
    ensures Misses(s, acts, o)
    decreases if s.readers[r].Idle? then (if s.readers[r].next < |s.log| then 2 else 3)
              else if s.readers[r].Holding? then 1
              else 0
  {
    var a := match s.readers[r] {
      case Idle(next) => if next < |s.log| then Fetch(r) else Append([m])
      case Holding(_) => Settle(r, Handled)
      case Done(_) => Commit(r, true)
    };
    StepKeepsInv(s, a);
    if a.Commit? {
      acts := [];
      assert Missed(After(Apply(s, a), acts), o);
    } else {
      acts := PastReaderMisses(Apply(s, a), r, o, m);
    }
    MissesCons(s, a, acts, o);
    acts := [a] + acts;
  }

  lemma UnsecuredMisses(s: State, o: nat, m: Message) returns (acts: seq<Action>)
    requires Inv(s) && o < |s.log| && !Secured(s, o)
    ensures Misses(s, acts, o)
  {
    if s.committed.Some? && o < s.committed.value {
      acts := [];
    } else if r :| r in s.readers && o < Behind(s.readers[r]) {
      acts := PastReaderMisses(s, r, o, m);
    } else {
      var r := IntSets.Unused(s.readers.Keys);
      StepKeepsInv(s, Join(r));
      acts := PastReaderMisses(Apply(s, Join(r)), r, o, m);
      MissesCons(s, Join(r), acts, o);
      acts := [Join(r)] + acts;
    }
  }

  /**
   From any reachable state, some continuation commits past a message of the log without settling it if
   and only if the message is not secured.
   */
  lemma MissedExactlyWhenUnsecured(s: State, o: nat)
    requires Reachable(s) && o < |s.log|
    ensures (exists acts :: Misses(s, acts, o)) <==> !Secured(s, o)
  {
    ReachableInv(s);
    if Secured(s, o) {
      forall acts | Runs(s, acts)
        ensures !Misses(s, acts, o)
      {
        SecuredForever(s, acts, o);
      }
    } else {
      var acts := UnsecuredMisses(s, o, s.log[o]);
    }
  }

  /**
   A message that arrives now can be passed over if and only if the group has committed no offset yet: a
   member that joins then starts at the end of the log.
   */
  lemma ArrivalMissedExactlyWhenUncommitted(s: State, m: Message)
    requires Reachable(s)
    ensures (exists acts :: Misses(Apply(s, Append([m])), acts, |s.log|)) <==> s.committed.None?
  {
    ReachableInv(s);
    var s' := Apply(s, Append([m]));
    StepKeepsInv(s, Append([m]));
    if s.committed.None? {
      var acts := UnsecuredMisses(s', |s.log|, m);
    } else {
      assert Secured(s', |s.log|);
      forall acts | Runs(s', acts)
        ensures !Misses(s', acts, |s.log|)
      {
        SecuredForever(s', acts, |s.log|);
      }
    }
  }

  /** No member of the run joins a partition that has messages and no committed offset. */
  ghost predicate NoBlindJoin(s: State, acts: seq<Action>)
    requires Runs(s, acts)
    decreases acts
  {
    || acts == []
    || ((acts[0].Join? && s.committed.None? ==> s.log == []) && NoBlindJoin(Apply(s, acts[0]), acts[1..]))
  }

  lemma {:induction false} SightedStaysAtZero(s: State, acts: seq<Action>)
    requires Runs(s, acts) && NoBlindJoin(s, acts) && s.blind == 0
    ensures After(s, acts).blind == 0
    decreases acts
  {
    if acts != [] {
      SightedStaysAtZero(Apply(s, acts[0]), acts[1..]);
    }
  }

  /** Runs in which no member joins blindly pass over nothing. */
  lemma NothingMissed(acts: seq<Action>, o: nat)
    requires Runs(Init(), acts) && NoBlindJoin(Init(), acts)
    ensures !Missed(After(Init(), acts), o)
  {
    SightedStaysAtZero(Init(), acts);
    RunKeepsInv(Init(), acts);
  }

  /** The first message of a partition, sent before the group exists, is passed over in some run. */
  lemma FirstJoinSkips(m: Message)
    ensures exists acts :: Misses(Init(), acts, 0)
  {
    assert Runs(Init(), []);
    assert After(Init(), []) == Init();
    ArrivalMissedExactlyWhenUncommitted(Init(), m);
    var acts :| Misses(Apply(Init(), Append([m])), acts, 0);
    MissesCons(Init(), Append([m]), acts, 0);
  }
}
