/**
 The transactional outbox with any number of dispatch workers. Claiming is one UPDATE, publishing
 and marking are separate steps, and a worker may stop after any of them. The Kafka writer sends
 again what was not acknowledged: one publish may put any number of copies in the topic, also
 when it reports an error, and copies may arrive after it has returned.
 */
module OutboxMachine {
  import opened Wrappers
  import opened OutboxEnvelope

  /** A worker with a claimed batch; `outcome` is what Publish said of its head, before the mark. */
  datatype Worker = Worker(batch: seq<int>, outcome: Option<bool>)

  /** Row `id` was handed to Publish, which returned nil or an error; `copies` of its message have arrived so far. */
  datatype HandOff = HandOff(id: int, ok: bool, copies: nat)

  datatype State = State(
    rows: map<int, Row>,
    next: int,
    workers: map<int, Worker>,
    handed: seq<HandOff>,
    topic: seq<int>)

  datatype Action =
    | Insert(row: Row)
    | Claim(worker: int, ids: seq<int>)
    | Publish(worker: int, ok: bool, copies: nat)
    | Resend(handOff: int)
    | Mark(worker: int, done: bool)
    | Stop(worker: int)

  function Init(): State { State(map[], 0, map[], [], []) }

  predicate NoDuplicates(ids: seq<int>) {
    forall i, j :: 0 <= i < j < |ids| ==> ids[i] != ids[j]
  }

  ghost predicate Enabled(s: State, a: Action) {
    match a
    case Insert(row) => row.state == Pending
    case Claim(w, ids) =>
      && w !in s.workers && NoDuplicates(ids)
      && forall i :: 0 <= i < |ids| ==> ids[i] in s.rows && s.rows[ids[i]].state == Pending
    case Publish(w, ok, copies) =>
      w in s.workers && s.workers[w].batch != [] && s.workers[w].outcome.None? && (ok ==> copies >= 1)
    case Resend(k) => 0 <= k < |s.handed|
    case Mark(w, _) => w in s.workers && s.workers[w].batch != [] && s.workers[w].outcome.Some?
    case Stop(w) => w in s.workers
  }

  /** The claiming UPDATE. */
  function ClaimRows(rows: map<int, Row>, ids: seq<int>): map<int, Row> {
    map id | id in rows :: if id in ids then rows[id].(state := Publishing) else rows[id]
  }

  /** MarkPublished or MarkFailed; a mark that itself fails changes nothing. */
  function MarkRow(rows: map<int, Row>, id: int, ok: bool): map<int, Row> {
    if id in rows then rows[id := rows[id].(state := if ok then Published else Failed)] else rows
  }

  /** How often the id stands in the topic. */
  function Count(topic: seq<int>, id: int): nat {
    multiset(topic)[id]
  }

  function Copies(id: int, n: nat): seq<int> {
    seq(n, _ => id)
  }

  ghost function Apply(s: State, a: Action): State
    requires Enabled(s, a)
  {
    match a
    case Insert(row) => s.(rows := s.rows[s.next := row], next := s.next + 1)
    case Claim(w, ids) => s.(rows := ClaimRows(s.rows, ids), workers := s.workers[w := Worker(ids, None)])
    case Publish(w, ok, copies) =>
      var id := s.workers[w].batch[0];
      s.(workers := s.workers[w := s.workers[w].(outcome := Some(ok))],
      handed := s.handed + [HandOff(id, ok, copies)],
      topic := s.topic + Copies(id, copies))
    case Resend(k) =>
      var h := s.handed[k];
      s.(handed := s.handed[k := h.(copies := h.copies + 1)], topic := s.topic + Copies(h.id, 1))
    case Mark(w, done) =>
      var x := s.workers[w];
      s.(rows := if done then MarkRow(s.rows, x.batch[0], x.outcome.value) else s.rows,
      workers := s.workers[w := Worker(x.batch[1..], None)])
    case Stop(w) => s.(workers := s.workers - {w})
  }

  // ----- what every reachable state satisfies

  /** Batches hold claimed rows, and no row is held twice. */
  ghost predicate BatchInv(s: State) {
    && (forall id :: id in s.rows ==> id < s.next)
    && (forall w :: w in s.workers ==> NoDuplicates(s.workers[w].batch))
    && (forall w, i :: w in s.workers && 0 <= i < |s.workers[w].batch| ==>
                         s.workers[w].batch[i] in s.rows && s.rows[s.workers[w].batch[i]].state == Publishing)
    && (forall v, w, i :: v in s.workers && w in s.workers && v != w && 0 <= i < |s.workers[v].batch| ==>
                            s.workers[v].batch[i] !in s.workers[w].batch)
  }

  /** Position `i` of a batch has not been handed over. */
  predicate Waiting(x: Worker, i: int) {
    0 <= i < |x.batch| && (i == 0 ==> x.outcome.None?)
  }

  /** Rows are handed over once; rows still waiting in a batch have not been. */
  ghost predicate HandedInv(s: State) {
    && (forall i, j :: 0 <= i < j < |s.handed| ==> s.handed[i].id != s.handed[j].id)
    && (forall k :: 0 <= k < |s.handed| ==> s.handed[k].id in s.rows && s.rows[s.handed[k].id].state != Pending)
    && (forall w, i, k :: w in s.workers && Waiting(s.workers[w], i) && 0 <= k < |s.handed| ==>
                            s.handed[k].id != s.workers[w].batch[i])
  }

  /** Publish was called for the row. */
  ghost predicate Handed(s: State, id: int) {
    exists k :: 0 <= k < |s.handed| && s.handed[k].id == id
  }

  /** Publish was called for the row and returned nil, or an error. */
  ghost predicate PublishSaid(s: State, id: int, ok: bool) {
    exists k :: 0 <= k < |s.handed| && s.handed[k].id == id && s.handed[k].ok == ok
  }

  /** A mark tells what Publish said. */
  ghost predicate MarkInv(s: State) {
    && (forall w :: w in s.workers && s.workers[w].outcome.Some? ==>
                      s.workers[w].batch != [] && PublishSaid(s, s.workers[w].batch[0], s.workers[w].outcome.value))
    && (forall id :: id in s.rows && s.rows[id].state == Published ==> PublishSaid(s, id, true))
    && (forall id :: id in s.rows && s.rows[id].state == Failed ==> PublishSaid(s, id, false))
  }

  /** The topic holds what the hand-offs delivered, and nothing else. */
  ghost predicate TopicInv(s: State) {
    && (forall id :: id in s.topic ==> Handed(s, id))
    && (forall k :: 0 <= k < |s.handed| ==> Count(s.topic, s.handed[k].id) == s.handed[k].copies)
    && (forall k :: 0 <= k < |s.handed| && s.handed[k].ok ==> s.handed[k].copies >= 1)
  }

  ghost predicate Inv(s: State) {
    BatchInv(s) && HandedInv(s) && MarkInv(s) && TopicInv(s)
  }

  lemma InsertStep(s: State, a: Action)
    requires Inv(s) && Enabled(s, a) && a.Insert?
    ensures Inv(Apply(s, a))
  {}

  lemma ClaimKeepsBatch(s: State, a: Action)
    requires BatchInv(s) && Enabled(s, a) && a.Claim?
    ensures BatchInv(Apply(s, a))
  {}

  lemma ClaimKeepsHanded(s: State, a: Action)
    requires HandedInv(s) && Enabled(s, a) && a.Claim?
    ensures HandedInv(Apply(s, a))
  {}

  lemma ClaimKeepsMarks(s: State, a: Action)
    requires MarkInv(s) && Enabled(s, a) && a.Claim?
    ensures MarkInv(Apply(s, a))
  {
    var s' := Apply(s, a);
    assert s'.handed == s.handed;
    assert forall id, ok :: PublishSaid(s, id, ok) ==> PublishSaid(s', id, ok);
  }

  lemma ClaimStep(s: State, a: Action)
    requires Inv(s) && Enabled(s, a) && a.Claim?
    ensures Inv(Apply(s, a))
  {
    ClaimKeepsBatch(s, a);
    ClaimKeepsHanded(s, a);
    ClaimKeepsMarks(s, a);
    assert forall id :: Handed(s, id) ==> Handed(Apply(s, a), id);
  }

  lemma PublishKeepsBatch(s: State, a: Action)
    requires BatchInv(s)
    requires Enabled(s, a) && a.Publish?
    ensures BatchInv(Apply(s, a))
  {}

  lemma PublishKeepsHanded(s: State, a: Action)
    requires BatchInv(s) && HandedInv(s)
    requires Enabled(s, a) && a.Publish?
    ensures HandedInv(Apply(s, a))
  {}

  lemma PublishKeepsMarks(s: State, a: Action)
    requires BatchInv(s) && HandedInv(s) && MarkInv(s)
    requires Enabled(s, a) && a.Publish?
    ensures MarkInv(Apply(s, a))
  {
    var s' := Apply(s, a);
    forall id, ok | PublishSaid(s, id, ok)
      ensures PublishSaid(s', id, ok)
    {
      var k :| 0 <= k < |s.handed| && s.handed[k].id == id && s.handed[k].ok == ok;
      assert s'.handed[k] == s.handed[k];
    }
    assert s'.handed[|s.handed|].ok == a.ok;
  }

  /** Appending copies of one id adds to its count only. */
  lemma {:induction false} CopiesCount(topic: seq<int>, id: int, n: nat, x: int)
    ensures Count(topic + Copies(id, n), x) == Count(topic, x) + if x == id then n else 0
    decreases n
  {
    if n == 0 {
      assert topic + Copies(id, n) == topic;
    } else {
      CopiesCount(topic, id, n - 1, x);
      assert topic + Copies(id, n) == topic + Copies(id, n - 1) + [id];
    }
  }

  lemma PublishKeepsTopic(s: State, a: Action)
    requires BatchInv(s) && HandedInv(s) && TopicInv(s)
    requires Enabled(s, a) && a.Publish?
    ensures TopicInv(Apply(s, a))
  {
    var s', id := Apply(s, a), s.workers[a.worker].batch[0];
    assert Waiting(s.workers[a.worker], 0);
    assert id !in s.topic && Count(s.topic, id) == 0;
    assert s'.handed[|s.handed|].id == id;
    forall x | x in s'.topic
      ensures Handed(s', x)
    {
      if x in s.topic {
        var k :| 0 <= k < |s.handed| && s.handed[k].id == x;
        assert s'.handed[k].id == x;
      }
    }
    forall k | 0 <= k < |s'.handed|
      ensures Count(s'.topic, s'.handed[k].id) == s'.handed[k].copies
    {
      CopiesCount(s.topic, id, a.copies, s'.handed[k].id);
    }
  }

  lemma PublishStep(s: State, a: Action)
    requires Inv(s) && Enabled(s, a) && a.Publish?
    ensures Inv(Apply(s, a))
  {
    PublishKeepsBatch(s, a);
    PublishKeepsHanded(s, a);
    PublishKeepsMarks(s, a);
    PublishKeepsTopic(s, a);
  }

  /** A late copy changes one count. */
  lemma ResendStep(s: State, a: Action)
    requires Inv(s) && Enabled(s, a) && a.Resend?
    ensures Inv(Apply(s, a))
  {
    var s', id := Apply(s, a), s.handed[a.handOff].id;
    forall k | 0 <= k < |s'.handed|
      ensures s'.handed[k].id == s.handed[k].id && s'.handed[k].ok == s.handed[k].ok
      ensures Count(s'.topic, s'.handed[k].id) == s'.handed[k].copies
    {
      CopiesCount(s.topic, id, 1, s'.handed[k].id);
    }
    forall x | Handed(s, x)
      ensures Handed(s', x)
    {
      var k :| 0 <= k < |s.handed| && s.handed[k].id == x;
      assert s'.handed[k].id == x;
    }
    forall x, ok | PublishSaid(s, x, ok)
      ensures PublishSaid(s', x, ok)
    {
      var k :| 0 <= k < |s.handed| && s.handed[k].id == x && s.handed[k].ok == ok;
      assert s'.handed[k].id == x;
    }
    assert s'.handed[a.handOff].id == id;
  }

  lemma MarkKeepsBatch(s: State, a: Action)
    requires BatchInv(s) && MarkInv(s)
    requires Enabled(s, a) && a.Mark?
    ensures BatchInv(Apply(s, a))
  {}

  lemma MarkKeepsHanded(s: State, a: Action)
    requires BatchInv(s) && HandedInv(s) && MarkInv(s)
    requires Enabled(s, a) && a.Mark?
    ensures HandedInv(Apply(s, a))
  {}

  lemma MarkKeepsMarks(s: State, a: Action)
    requires BatchInv(s) && HandedInv(s) && MarkInv(s)
    requires Enabled(s, a) && a.Mark?
    ensures MarkInv(Apply(s, a))
  {}

  lemma MarkKeepsTopic(s: State, a: Action)
    requires BatchInv(s) && HandedInv(s) && TopicInv(s)
    requires Enabled(s, a) && a.Mark?
    ensures TopicInv(Apply(s, a))
  {}

  lemma MarkStep(s: State, a: Action)
    requires Inv(s) && Enabled(s, a) && a.Mark?
    ensures Inv(Apply(s, a))
  {
    MarkKeepsBatch(s, a);
    MarkKeepsHanded(s, a);
    MarkKeepsMarks(s, a);
    MarkKeepsTopic(s, a);
  }

  lemma StopStep(s: State, a: Action)
    requires Inv(s) && Enabled(s, a) && a.Stop?
    ensures Inv(Apply(s, a))
  {}

  lemma StepKeepsInv(s: State, a: Action)
    requires Inv(s) && Enabled(s, a)
    ensures Inv(Apply(s, a))
  {
    match a
    case Insert(_) => InsertStep(s, a);
    case Claim(_, _) => ClaimStep(s, a);
    case Publish(_, _, _) => PublishStep(s, a);
    case Resend(_) => ResendStep(s, a);
    case Mark(_, _) => MarkStep(s, a);
    case Stop(_) => StopStep(s, a);
  }
}
