/**
 What the outbox guarantees over whole runs of inserts, workers and crashes.
 */
module OutboxTheorems {
  import opened Wrappers
  import opened OutboxEnvelope
  import opened OutboxMachine

  ghost predicate Runs(s: State, acts: seq<Action>)
    decreases acts
  {
    acts == [] || (Enabled(s, acts[0]) && Runs(Apply(s, acts[0]), acts[1..]))
  }

  ghost function After(s: State, acts: seq<Action>): State
    requires Runs(s, acts)
    decreases acts
  {
    if acts == [] then s else After(Apply(s, acts[0]), acts[1..])
  }

  lemma {:induction false} RunKeepsInv(s: State, acts: seq<Action>)
    requires Inv(s) && Runs(s, acts)
    ensures Inv(After(s, acts))
    decreases acts
  {
    if acts != [] {
      StepKeepsInv(s, acts[0]);
      RunKeepsInv(Apply(s, acts[0]), acts[1..]);
    }
  }

  ghost predicate Reachable(s: State) {
    exists acts :: Runs(Init(), acts) && After(Init(), acts) == s
  }

  lemma {:induction false} RunsSnoc(s: State, acts: seq<Action>, a: Action)
    requires Runs(s, acts) && Enabled(After(s, acts), a)
    ensures Runs(s, acts + [a]) && After(s, acts + [a]) == Apply(After(s, acts), a)
    decreases acts
  {
    if acts == [] {
      assert Runs(Apply(s, a), []);
      assert ([a])[1..] == [];
    } else {
      RunsSnoc(Apply(s, acts[0]), acts[1..], a);
      assert (acts + [a])[1..] == acts[1..] + [a];
    }
  }

  lemma ReachableStep(s: State, a: Action)
    requires Reachable(s) && Enabled(s, a)
    ensures Reachable(Apply(s, a))
  {
    var acts :| Runs(Init(), acts) && After(Init(), acts) == s;
    RunsSnoc(Init(), acts, a);
  }

  lemma ReachableInv(s: State)
    requires Reachable(s)
    ensures Inv(s)
  {
    var acts :| Runs(Init(), acts) && After(Init(), acts) == s;
    RunKeepsInv(Init(), acts);
  }

  /** However many workers run and wherever they stop, a row is handed to Publish at most once. */
  lemma HandedAtMostOnce(acts: seq<Action>, i: nat, j: nat)
    requires Runs(Init(), acts) && i < j < |After(Init(), acts).handed|
    ensures After(Init(), acts).handed[i].id != After(Init(), acts).handed[j].id
  {
    RunKeepsInv(Init(), acts);
  }

  /**
   A published row was published with success and is in the topic, a failed one ended with an error; a
   pending one was not handed over and is not in the topic.
   */
  lemma MarksTellTheOutcome(acts: seq<Action>, id: int)
    requires Runs(Init(), acts) && id in After(Init(), acts).rows
    ensures var s := After(Init(), acts);
            && (s.rows[id].state == Published ==>
                  PublishSaid(s, id, true) && !PublishSaid(s, id, false) && id in s.topic)
            && (s.rows[id].state == Failed ==> PublishSaid(s, id, false) && !PublishSaid(s, id, true))
            && (s.rows[id].state == Pending ==> !Handed(s, id) && id !in s.topic)
  {
    RunKeepsInv(Init(), acts);
    var s := After(Init(), acts);
    if s.rows[id].state == Published {
      var k :| 0 <= k < |s.handed| && s.handed[k].id == id && s.handed[k].ok == true;
      assert Count(s.topic, s.handed[k].id) >= 1;
    }
  }

  /** A row's message stands in the topic as often as its one hand-off delivered it; without a hand-off, never. */
  lemma CopiesComeFromOneHandOff(acts: seq<Action>, id: int)
    requires Runs(Init(), acts)
    ensures var s := After(Init(), acts);
            && (forall k :: 0 <= k < |s.handed| && s.handed[k].id == id ==> Count(s.topic, id) == s.handed[k].copies)
            && (!Handed(s, id) ==> Count(s.topic, id) == 0)
  {
    RunKeepsInv(Init(), acts);
  }

  // ----- states only move forward, rows stay

  /** The moves pending, publishing, then published or failed; taken zero or more times. */
  predicate Forward(a: RowState, b: RowState) {
    a == b || a == Pending || (a == Publishing && b != Pending)
  }

  lemma ForwardStep(s: State, a: Action, id: int)
    requires Inv(s) && Enabled(s, a) && id in s.rows
    ensures id in Apply(s, a).rows
    ensures Apply(s, a).rows[id] == s.rows[id].(state := Apply(s, a).rows[id].state)
    ensures Forward(s.rows[id].state, Apply(s, a).rows[id].state)
  {}

  /** From any reachable state on, no row is lost or rewritten and its state never moves back. */
  lemma {:induction false} StatesMoveForward(s: State, acts: seq<Action>, id: int)
    requires Inv(s) && Runs(s, acts) && id in s.rows
    ensures id in After(s, acts).rows
    ensures After(s, acts).rows[id] == s.rows[id].(state := After(s, acts).rows[id].state)
    ensures Forward(s.rows[id].state, After(s, acts).rows[id].state)
    decreases acts
  {
    if acts != [] {
      ForwardStep(s, acts[0], id);
      StepKeepsInv(s, acts[0]);
      StatesMoveForward(Apply(s, acts[0]), acts[1..], id);
    }
  }

  function InState(rows: map<int, Row>, state: RowState): set<int> {
    set id | id in rows && rows[id].state == state
  }

  function Inserts(acts: seq<Action>): nat {
    if acts == [] then 0 else (if acts[0].Insert? then 1 else 0) + Inserts(acts[1..])
  }

  lemma CountStep(s: State, a: Action)
    requires s.next !in s.rows && Enabled(s, a)
    ensures |Apply(s, a).rows| == |s.rows| + if a.Insert? then 1 else 0
  {
    match a
    case Insert(row) =>
    case Claim(_, ids) => assert ClaimRows(s.rows, ids).Keys == s.rows.Keys;
    case Publish(_, _, _) =>
    case Resend(_) =>
    case Mark(w, _) =>
      var id := s.workers[w].batch[0];
      if id in s.rows {
        assert MarkRow(s.rows, id, s.workers[w].outcome.value).Keys == s.rows.Keys;
      }
    case Stop(_) =>
  }

  lemma {:induction false} CountRows(s: State, acts: seq<Action>)
    requires Inv(s) && Runs(s, acts)
    ensures |After(s, acts).rows| == |s.rows| + Inserts(acts)
    decreases acts
  {
    if acts != [] {
      CountStep(s, acts[0]);
      StepKeepsInv(s, acts[0]);
      CountRows(Apply(s, acts[0]), acts[1..]);
    }
  }

  lemma FourStates(r: map<int, Row>)
    ensures |InState(r, Pending)| + |InState(r, Publishing)| + |InState(r, Published)| + |InState(r, Failed)| == |r|
  {
    var a, b, c, d := InState(r, Pending), InState(r, Publishing), InState(r, Published), InState(r, Failed);
    forall id | id in r
      ensures id in a + b + (c + d)
    {
      match r[id].state
      case Pending => assert id in a;
      case Publishing => assert id in b;
      case Published => assert id in c;
      case Failed => assert id in d;
    }
    assert r.Keys == a + b + (c + d);
    assert |a + b| == |a| + |b| && |c + d| == |c| + |d|;
    assert |a + b + (c + d)| == |a + b| + |c + d|;
  }

  /** The four states hold every inserted row exactly once. */
  lemma NoRowLostOrDuplicated(acts: seq<Action>)
    requires Runs(Init(), acts)
    ensures var r := After(Init(), acts).rows;
            |InState(r, Pending)| + |InState(r, Publishing)| + |InState(r, Published)| + |InState(r, Failed)|
            == Inserts(acts)
  {
    CountRows(Init(), acts);
    FourStates(After(Init(), acts).rows);
  }

  // ----- a claimed row is handed over exactly when a worker still holds it

  ghost predicate Held(s: State, id: int) {
    exists w, i :: w in s.workers && Waiting(s.workers[w], i) && s.workers[w].batch[i] == id
  }

  lemma StrandedStep(s: State, a: Action, id: int)
    requires Inv(s) && Enabled(s, a)
    requires id in s.rows && s.rows[id].state != Pending && !Held(s, id) && !Handed(s, id)
    ensures id in Apply(s, a).rows && Apply(s, a).rows[id] == s.rows[id]
    ensures !Held(Apply(s, a), id) && !Handed(Apply(s, a), id)
  {
    var s' := Apply(s, a);
    forall w, i | w in s'.workers && Waiting(s'.workers[w], i)
      ensures s'.workers[w].batch[i] != id
    {
      if a.Mark? && w == a.worker {
        assert Waiting(s.workers[w], i + 1);
      } else if w in s.workers && s'.workers[w].batch == s.workers[w].batch {
        assert Waiting(s.workers[w], i);
      }
    }
    if a.Publish? {
      assert Waiting(s.workers[a.worker], 0);
    }
    if a.Mark? {
      var x := s.workers[a.worker];
      assert PublishSaid(s, x.batch[0], x.outcome.value);
    }
    if a.Resend? {
      assert forall k :: 0 <= k < |s.handed| ==> s'.handed[k].id == s.handed[k].id;
    }
  }

  /** A claimed row that no worker holds keeps its state, publishing, for good. */
  lemma {:induction false} StrandedForever(s: State, acts: seq<Action>, id: int)
    requires Inv(s) && Runs(s, acts)
    requires id in s.rows && s.rows[id].state != Pending && !Held(s, id) && !Handed(s, id)
    ensures !Handed(After(s, acts), id)
    ensures id in After(s, acts).rows && After(s, acts).rows[id] == s.rows[id]
    decreases acts
  {
    if acts != [] {
      StrandedStep(s, acts[0], id);
      StepKeepsInv(s, acts[0]);
      StrandedForever(Apply(s, acts[0]), acts[1..], id);
    }
  }

  /** The worker goes through its batch up to position `i`. */
  lemma {:induction false} WorkerReaches(s: State, w: int, i: nat) returns (acts: seq<Action>)
    requires w in s.workers && Waiting(s.workers[w], i)
    ensures Runs(s, acts) && Handed(After(s, acts), s.workers[w].batch[i])
    decreases i, s.workers[w].outcome.None?
  {
    if s.workers[w].outcome.None? {
      var a := Publish(w, true, 1);
      var s' := Apply(s, a);
      if i == 0 {
        acts := [a];
        assert acts[1..] == [];
        assert s'.handed[|s.handed|].id == s.workers[w].batch[0];
        assert After(s, acts) == s';
      } else {
        acts := WorkerReaches(s', w, i);
        assert ([a] + acts)[1..] == acts;
        acts := [a] + acts;
      }
    } else {
      var a := Mark(w, true);
      acts := WorkerReaches(Apply(s, a), w, i - 1);
      assert ([a] + acts)[1..] == acts;
      acts := [a] + acts;
    }
  }

  /** The run hands the row over. */
  ghost predicate HandsOver(s: State, acts: seq<Action>, id: int) {
    Runs(s, acts) && Handed(After(s, acts), id)
  }

  lemma HeldReaches(s: State, id: int) returns (acts: seq<Action>)
    requires Held(s, id)
    ensures HandsOver(s, acts, id)
  {
    var w, i :| w in s.workers && Waiting(s.workers[w], i) && s.workers[w].batch[i] == id;
    acts := WorkerReaches(s, w, i);
  }

  /**
   A row that was claimed and not yet handed over will be handed over in some continuation
   if and only if a worker still holds it. A row whose worker stopped stays as it is, publishing, in
   every continuation: Publish is called at most once per row, not at least once.
   */
  lemma HandedExactlyWhenHeld(s: State, id: int)
    requires Reachable(s) && id in s.rows && s.rows[id].state == Publishing && !Handed(s, id)
    ensures Held(s, id) <==> exists acts :: HandsOver(s, acts, id)
    ensures !Held(s, id) ==>
              forall acts :: Runs(s, acts) ==> id in After(s, acts).rows && After(s, acts).rows[id] == s.rows[id]
  {
    ReachableInv(s);
    if Held(s, id) {
      var acts := HeldReaches(s, id);
    } else {
      forall acts | Runs(s, acts)
        ensures !HandsOver(s, acts, id)
        ensures id in After(s, acts).rows && After(s, acts).rows[id] == s.rows[id]
      {
        StrandedForever(s, acts, id);
      }
    }
  }
}
