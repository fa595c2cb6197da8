/**
 From registration to deduplication: registering transactions statement by statement, the outbox,
 the broker's partition, and the processed_events table, with dispatch workers, group members and
 registrations interleaved.
 */
module Pipeline {
  import opened Wrappers
  import IntSets
  import opened OutboxEnvelope
  import O = OutboxMachine
  import C = ConsumerMachine
  import OT = OutboxTheorems

  const REGISTERED := "user.registered"

  /** A (consumer name, event id) key of processed_events. */
  datatype Mark = Mark(consumer: string, eventId: string)

  /** A registering transaction: what it has written and not committed. */
  datatype Draft = Draft(userId: nat, email: string, password: Option<string>, row: Option<Row>)

  /** `minted` holds every event id ever generated, `wins` the calls of TryMarkProcessed that returned true. */
  datatype State = State(
    users: map<nat, string>,
    credentials: map<nat, string>,
    drafts: map<int, Draft>,
    outbox: O.State,
    partition: C.State,
    processed: set<Mark>,
    minted: set<string>,
    wins: seq<Mark>)

  datatype Action =
    | InsertUser(pid: int, userId: nat, email: string)
    | InsertCredential(pid: int, password: string)
    | Record(pid: int, row: Row)
    | Commit(pid: int)
    | Rollback(pid: int)
    | OtherEvent(row: Row)
    | Dispatch(outbox: O.Action, now: int)
    | Consume(consumer: C.Action)
    | TryMark(mark: Mark, answered: bool)

  function Init(): State {
    State(map[], map[], map[], O.Init(), C.Init(), {}, {}, [])
  }

  /** strconv.FormatInt of a user id. */
  function Decimal(n: nat): string {
    if n < 10 then [Digit(n)] else Decimal(n / 10) + [Digit(n % 10)]
  }

  function Digit(d: nat): char
    requires d < 10
  {
    '0' + d as char
  }

  lemma {:induction false} DecimalInjective(m: nat, n: nat)
    requires Decimal(m) == Decimal(n)
    ensures m == n
    decreases m
  {
    var x, y := Decimal(m), Decimal(n);
    assert |x| == |y| && x[|x| - 1] == y[|y| - 1];
    assert m % 10 == n % 10;
    if m >= 10 && n >= 10 {
      assert Decimal(m / 10) == x[..|x| - 1] && Decimal(n / 10) == y[..|y| - 1];
      DecimalInjective(m / 10, n / 10);
    }
  }

  predicate IsDigits(s: string) {
    forall i :: 0 <= i < |s| ==> '0' <= s[i] <= '9'
  }

  /** The number a text of digits stands for. */
  function Value(s: string): nat
    requires IsDigits(s)
  {
    if s == "" then 0 else 10 * Value(s[..|s| - 1]) + (s[|s| - 1] - '0') as int
  }

  /** Decimal writes the number in base ten, without leading zeros. */
  lemma {:induction false} DecimalIs(n: nat)
    ensures IsDigits(Decimal(n)) && Value(Decimal(n)) == n
    ensures Decimal(n) != "" && (Decimal(n)[0] == '0' ==> n == 0)
  {
    var s := Decimal(n);
    if n < 10 {
      assert s[..0] == "";
    } else {
      DecimalIs(n / 10);
      assert s[..|s| - 1] == Decimal(n / 10);
    }
  }

  predicate IsRegistration(row: Row, userId: nat) {
    row.eventType == REGISTERED && row.aggregateId == Some(Decimal(userId))
  }

  /** A row as Record leaves it, with an id that was never used. */
  predicate NewRow(s: State, row: Row) {
    row.state == Pending && row.payload.eventId !in s.minted
  }

  /** The unique index on users.email: no other row has the address, committed or not. */
  ghost predicate EmailFree(s: State, email: string) {
    && (forall u :: u in s.users ==> s.users[u] != email)
    && (forall p :: p in s.drafts ==> s.drafts[p].email != email)
  }

  /** The id sequence hands out no id twice. */
  ghost predicate IdFree(s: State, userId: nat) {
    userId !in s.users && forall p :: p in s.drafts ==> s.drafts[p].userId != userId
  }

  ghost predicate Enabled(s: State, a: Action) {
    match a
    case InsertUser(pid, userId, email) => pid !in s.drafts && IdFree(s, userId) && EmailFree(s, email)
    case InsertCredential(pid, _) => pid in s.drafts && s.drafts[pid].password.None?
    case Record(pid, row) =>
      && pid in s.drafts && s.drafts[pid].password.Some? && s.drafts[pid].row.None?
      && NewRow(s, row) && IsRegistration(row, s.drafts[pid].userId)
    case Commit(pid) => pid in s.drafts && s.drafts[pid].row.Some?
    case Rollback(pid) => pid in s.drafts
    case OtherEvent(row) => NewRow(s, row) && row.eventType != REGISTERED
    case Dispatch(o, _) => !o.Insert? && O.Enabled(s.outbox, o)
    case Consume(c) => !c.Append? && C.Enabled(s.partition, c)
    case TryMark(_, _) => true
  }

  /** What a step of a worker, or of the writer behind it, adds to the topic. */
  ghost function Added(s: O.State, o: O.Action): seq<int>
    requires O.Enabled(s, o)
  {
    if o.Publish? then O.Copies(s.workers[o.worker].batch[0], o.copies)
    else if o.Resend? then O.Copies(s.handed[o.handOff].id, 1)
    else []
  }

  /** The messages of these rows, sent at `now`. */
  ghost function Messages(rows: map<int, Row>, ids: seq<int>, now: int): seq<Message>
    requires forall i :: 0 <= i < |ids| ==> ids[i] in rows
  {
    seq(|ids|, i requires 0 <= i < |ids| => MessageOf(rows[ids[i]].topic, rows[ids[i]].payload, now))
  }

  /** The broker appends the messages that arrive. */
  ghost function Deliver(s: State, o: O.Action, now: int): C.State
    requires O.Enabled(s.outbox, o)
  {
    var ids := Added(s.outbox, o);
    if forall i :: 0 <= i < |ids| ==> ids[i] in s.outbox.rows
    then C.Apply(s.partition, C.Append(Messages(s.outbox.rows, ids, now)))
    else s.partition
  }

  ghost function Apply(s: State, a: Action): State
    requires Enabled(s, a)
  {
    match a
    case InsertUser(pid, userId, email) => s.(drafts := s.drafts[pid := Draft(userId, email, None, None)])
    case InsertCredential(pid, password) =>
      s.(drafts := s.drafts[pid := s.drafts[pid].(password := Some(password))])
    case Record(pid, row) =>
      s.(drafts := s.drafts[pid := s.drafts[pid].(row := Some(row))], minted := s.minted + {row.payload.eventId})
    case Commit(pid) =>
      var d := s.drafts[pid];
      s.(users := s.users[d.userId := d.email],
      credentials := if d.password.Some? then s.credentials[d.userId := d.password.value] else s.credentials,
      outbox := O.Apply(s.outbox, O.Insert(d.row.value.(state := Pending))),
      drafts := s.drafts - {pid})
    case Rollback(pid) => s.(drafts := s.drafts - {pid})
    case OtherEvent(row) =>
      s.(outbox := O.Apply(s.outbox, O.Insert(row)), minted := s.minted + {row.payload.eventId})
    case Dispatch(o, now) => s.(outbox := O.Apply(s.outbox, o), partition := Deliver(s, o, now))
    case Consume(c) => s.(partition := C.Apply(s.partition, c))
    case TryMark(mark, answered) =>
      if mark in s.processed then s
      else s.(processed := s.processed + {mark}, wins := if answered then s.wins + [mark] else s.wins)
  }

  // ----- what every reachable state satisfies

  /** The aggregate ids of the registration rows. */
  function Registrations(rows: map<int, Row>): map<int, Option<string>> {
    map id | id in rows && rows[id].eventType == REGISTERED :: rows[id].aggregateId
  }

  /** The event ids of the rows. */
  function EventIds(rows: map<int, Row>): map<int, string> {
    map id | id in rows :: rows[id].payload.eventId
  }

  /** A user has one credential and an email address of its own. */
  ghost predicate AccountsInv(users: map<nat, string>, credentials: map<nat, string>) {
    && users.Keys == credentials.Keys
    && forall i, j :: i in users && j in users && users[i] == users[j] ==> i == j
  }

  /** The aggregate ids of these users. */
  ghost function Names(users: set<nat>): set<Option<string>> {
    set u | u in users :: Some(Decimal(u))
  }

  /** A user has one registration row, and there is none without a user. */
  ghost predicate AnnouncedInv(names: set<Option<string>>, keys: map<int, Option<string>>) {
    && (forall name :: name in names ==> exists id :: id in keys && keys[id] == name)
    && (forall id :: id in keys ==> keys[id] in names)
    && (forall x, y :: x in keys && y in keys && keys[x] == keys[y] ==> x == y)
  }

  /** What uncommitted registrations have written clashes with nothing. */
  ghost predicate DraftsInv(users: map<nat, string>, drafts: map<int, Draft>) {
    && (forall p :: p in drafts ==>
                      && drafts[p].userId !in users
                      && (drafts[p].row.Some? ==>
                            drafts[p].password.Some? && IsRegistration(drafts[p].row.value, drafts[p].userId)))
    && (forall p, u :: p in drafts && u in users ==> users[u] != drafts[p].email)
    && (forall p, q :: p in drafts && q in drafts && p != q ==>
                         drafts[p].userId != drafts[q].userId && drafts[p].email != drafts[q].email)
  }

  /** The event id a registration has recorded but not committed. */
  predicate Uncommitted(d: Draft, eventId: string) {
    d.row.Some? && d.row.value.payload.eventId == eventId
  }

  /** Event ids are minted once. */
  ghost predicate IdsInv(ids: map<int, string>, drafts: map<int, Draft>, minted: set<string>) {
    && (forall id :: id in ids ==> ids[id] in minted)
    && (forall x, y :: x in ids && y in ids && ids[x] == ids[y] ==> x == y)
    && (forall p :: p in drafts && drafts[p].row.Some? ==> drafts[p].row.value.payload.eventId in minted)
    && (forall p, id :: p in drafts && id in ids ==> !Uncommitted(drafts[p], ids[id]))
    && (forall p, q :: p in drafts && q in drafts && p != q && drafts[p].row.Some? ==>
                         !Uncommitted(drafts[q], drafts[p].row.value.payload.eventId))
  }

  /** The message is the row's, sent at some time. */
  predicate IsCopy(m: Message, row: Row) {
    m == MessageOf(row.topic, row.payload, m.value.producedAt)
  }

  /** The partition holds, in order, messages of the rows in the topic. */
  ghost predicate LogInv(log: seq<Message>, topic: seq<int>, rows: map<int, Row>) {
    && |log| == |topic|
    && forall i :: 0 <= i < |topic| ==> topic[i] in rows && IsCopy(log[i], rows[topic[i]])
  }

  ghost predicate WinsInv(wins: seq<Mark>, processed: set<Mark>) {
    && (forall i, j :: 0 <= i < j < |wins| ==> wins[i] != wins[j])
    && (forall i :: 0 <= i < |wins| ==> wins[i] in processed)
  }

  ghost predicate Inv(s: State) {
    && OT.Reachable(s.outbox) && C.Reachable(s.partition)
    && AccountsInv(s.users, s.credentials) && AnnouncedInv(Names(s.users.Keys), Registrations(s.outbox.rows))
    && DraftsInv(s.users, s.drafts)
    && IdsInv(EventIds(s.outbox.rows), s.drafts, s.minted)
    && LogInv(s.partition.log, s.outbox.topic, s.outbox.rows)
    && WinsInv(s.wins, s.processed)
  }

  /** The same events in rows that may be in other states. */
  ghost predicate SameEvents(rows: map<int, Row>, rows': map<int, Row>) {
    && rows'.Keys == rows.Keys
    && Registrations(rows') == Registrations(rows) && EventIds(rows') == EventIds(rows)
    && forall id :: id in rows ==> rows'[id].topic == rows[id].topic && rows'[id].payload == rows[id].payload
  }

  lemma DispatchRows(s: O.State, o: O.Action)
    requires OT.Reachable(s) && O.Enabled(s, o) && !o.Insert?
    ensures SameEvents(s.rows, O.Apply(s, o).rows)
  {
    OT.ReachableInv(s);
    forall id | id in s.rows { OT.ForwardStep(s, o, id); }
  }

  /** Only rows that are there are handed over. */
  lemma AddedAreRows(s: O.State, o: O.Action)
    requires OT.Reachable(s) && O.Enabled(s, o) && !o.Insert?
    ensures forall i :: 0 <= i < |Added(s, o)| ==> Added(s, o)[i] in s.rows
    ensures O.Apply(s, o).topic == s.topic + Added(s, o)
  {
    OT.ReachableInv(s);
    if o.Publish? {
      assert s.workers[o.worker].batch[0] in s.rows;
    }
  }

  lemma AppendKeepsLog(log: seq<Message>, topic: seq<int>, rows: map<int, Row>, ids: seq<int>, now: int,
                       rows': map<int, Row>)
    requires LogInv(log, topic, rows) && SameEvents(rows, rows')
    requires forall i :: 0 <= i < |ids| ==> ids[i] in rows
    ensures LogInv(log + Messages(rows, ids, now), topic + ids, rows')
  {
    var log', topic' := log + Messages(rows, ids, now), topic + ids;
    forall i | 0 <= i < |topic'|
      ensures topic'[i] in rows' && IsCopy(log'[i], rows'[topic'[i]])
    {
      var id := topic'[i];
      if i < |topic| {
        assert IsCopy(log[i], rows[id]);
      } else {
        assert log'[i] == MessageOf(rows[id].topic, rows[id].payload, now);
      }
      assert IsCopy(log'[i], rows[id]) && rows'[id].topic == rows[id].topic && rows'[id].payload == rows[id].payload;
    }
  }

  lemma DispatchStep(s: State, a: Action)
    requires Inv(s) && Enabled(s, a) && a.Dispatch?
    ensures Inv(Apply(s, a))
  {
    var rows', ids := O.Apply(s.outbox, a.outbox).rows, Added(s.outbox, a.outbox);
    OT.ReachableStep(s.outbox, a.outbox);
    DispatchRows(s.outbox, a.outbox);
    AddedAreRows(s.outbox, a.outbox);
    AppendKeepsLog(s.partition.log, s.outbox.topic, s.outbox.rows, ids, a.now, rows');
    C.ReachableStep(s.partition, C.Append(Messages(s.outbox.rows, ids, a.now)));
  }

  lemma DraftKeepsDrafts(s: State, a: Action)
    requires DraftsInv(s.users, s.drafts) && Enabled(s, a)
    requires a.InsertUser? || a.InsertCredential? || a.Record? || a.Rollback?
    ensures DraftsInv(s.users, Apply(s, a).drafts)
  {}

  lemma DraftKeepsIds(s: State, a: Action)
    requires IdsInv(EventIds(s.outbox.rows), s.drafts, s.minted) && Enabled(s, a)
    requires a.InsertUser? || a.InsertCredential? || a.Record? || a.Rollback?
    ensures IdsInv(EventIds(s.outbox.rows), Apply(s, a).drafts, Apply(s, a).minted)
  {
    if !a.Rollback? {
      MoveKeepsIds(EventIds(s.outbox.rows), s.drafts, s.minted, a.pid, Apply(s, a).drafts[a.pid]);
    }
  }

  /** A registration moves on; what it records has a new event id. */
  lemma MoveKeepsIds(ids: map<int, string>, drafts: map<int, Draft>, minted: set<string>, p: int, d: Draft)
    requires IdsInv(ids, drafts, minted)
    requires d.row.Some? ==> d.row.value.payload.eventId !in minted || (p in drafts && drafts[p].row == d.row)
    ensures IdsInv(ids, drafts[p := d], minted + if d.row.Some? then {d.row.value.payload.eventId} else {})
  {}

  lemma DraftStep(s: State, a: Action)
    requires Inv(s) && Enabled(s, a) && (a.InsertUser? || a.InsertCredential? || a.Record? || a.Rollback?)
    ensures Inv(Apply(s, a))
  {
    DraftKeepsDrafts(s, a);
    DraftKeepsIds(s, a);
    var s' := Apply(s, a);
    assert s'.outbox == s.outbox && s'.partition == s.partition && s'.users == s.users;
    assert s'.credentials == s.credentials && s'.wins == s.wins && s'.processed == s.processed;
  }

  lemma InsertKeepsIds(ids: map<int, string>, drafts: map<int, Draft>, minted: set<string>, n: int, eventId: string)
    requires IdsInv(ids, drafts, minted) && n !in ids
    requires forall id :: id in ids ==> ids[id] != eventId
    requires forall p :: p in drafts ==> !Uncommitted(drafts[p], eventId)
    ensures IdsInv(ids[n := eventId], drafts, minted + {eventId})
  {}

  lemma InsertKeepsLog(log: seq<Message>, topic: seq<int>, rows: map<int, Row>, n: int, row: Row)
    requires LogInv(log, topic, rows) && n !in rows
    ensures LogInv(log, topic, rows[n := row])
  {}

  lemma NewName(users: set<nat>, u: nat)
    requires u !in users
    ensures Some(Decimal(u)) !in Names(users) && Names(users + {u}) == Names(users) + {Some(Decimal(u))}
  {
    if Some(Decimal(u)) in Names(users) {
      var v :| v in users && Decimal(v) == Decimal(u);
      DecimalInjective(u, v);
    }
  }

  lemma InsertKeepsAnnounced(names: set<Option<string>>, keys: map<int, Option<string>>, n: int, name: Option<string>)
    requires AnnouncedInv(names, keys) && n !in keys && name !in names
    ensures AnnouncedInv(names + {name}, keys[n := name])
  {
    var keys' := keys[n := name];
    assert keys'[n] == name;
    forall v | v in names
      ensures exists id :: id in keys' && keys'[id] == v
    {
      var x :| x in keys && keys[x] == v;
      assert keys'[x] == v;
    }
  }

  /** What an inserted row adds. */
  lemma InsertAdds(rows: map<int, Row>, n: int, row: Row)
    requires n !in rows
    ensures EventIds(rows[n := row]) == EventIds(rows)[n := row.payload.eventId]
    ensures row.eventType == REGISTERED ==>
              Registrations(rows[n := row]) == Registrations(rows)[n := row.aggregateId]
    ensures row.eventType != REGISTERED ==> Registrations(rows[n := row]) == Registrations(rows)
  {}

  lemma CommitKeepsDrafts(users: map<nat, string>, drafts: map<int, Draft>, pid: int)
    requires DraftsInv(users, drafts) && pid in drafts
    ensures DraftsInv(users[drafts[pid].userId := drafts[pid].email], drafts - {pid})
  {}

  lemma NextIsFree(s: O.State)
    requires OT.Reachable(s)
    ensures s.next !in s.rows
  {
    OT.ReachableInv(s);
  }

  lemma CommitKeepsAccounts(s: State, a: Action)
    requires AccountsInv(s.users, s.credentials) && DraftsInv(s.users, s.drafts) && Enabled(s, a) && a.Commit?
    ensures AccountsInv(Apply(s, a).users, Apply(s, a).credentials)
  {}

  lemma CommitKeepsAnnounced(s: State, a: Action)
    requires DraftsInv(s.users, s.drafts) && AnnouncedInv(Names(s.users.Keys), Registrations(s.outbox.rows))
    requires s.outbox.next !in s.outbox.rows && Enabled(s, a) && a.Commit?
    ensures AnnouncedInv(Names(Apply(s, a).users.Keys), Registrations(Apply(s, a).outbox.rows))
  {
    var d := s.drafts[a.pid];
    InsertAdds(s.outbox.rows, s.outbox.next, d.row.value.(state := Pending));
    NewName(s.users.Keys, d.userId);
    InsertKeepsAnnounced(Names(s.users.Keys), Registrations(s.outbox.rows), s.outbox.next, Some(Decimal(d.userId)));
    assert Apply(s, a).users.Keys == s.users.Keys + {d.userId};
  }

  lemma CommitKeepsIds(s: State, a: Action)
    requires IdsInv(EventIds(s.outbox.rows), s.drafts, s.minted) && s.outbox.next !in s.outbox.rows
    requires Enabled(s, a) && a.Commit?
    ensures IdsInv(EventIds(Apply(s, a).outbox.rows), Apply(s, a).drafts, Apply(s, a).minted)
  {
    var row := s.drafts[a.pid].row.value.(state := Pending);
    InsertAdds(s.outbox.rows, s.outbox.next, row);
    InsertKeepsIds(EventIds(s.outbox.rows), s.drafts - {a.pid}, s.minted, s.outbox.next, row.payload.eventId);
    assert s.minted + {row.payload.eventId} == s.minted;
  }

  lemma CommitStep(s: State, a: Action)
    requires Inv(s) && Enabled(s, a) && a.Commit?
    ensures Inv(Apply(s, a))
  {
    NextIsFree(s.outbox);
    var row := s.drafts[a.pid].row.value.(state := Pending);
    OT.ReachableStep(s.outbox, O.Insert(row));
    CommitKeepsAccounts(s, a);
    CommitKeepsDrafts(s.users, s.drafts, a.pid);
    InsertKeepsLog(s.partition.log, s.outbox.topic, s.outbox.rows, s.outbox.next, row);
    CommitKeepsAnnounced(s, a);
    CommitKeepsIds(s, a);
  }

  lemma OtherStep(s: State, a: Action)
    requires Inv(s) && Enabled(s, a) && a.OtherEvent?
    ensures Inv(Apply(s, a))
  {
    NextIsFree(s.outbox);
    var n := s.outbox.next;
    OT.ReachableStep(s.outbox, O.Insert(a.row));
    InsertKeepsLog(s.partition.log, s.outbox.topic, s.outbox.rows, n, a.row);
    InsertAdds(s.outbox.rows, n, a.row);
    InsertKeepsIds(EventIds(s.outbox.rows), s.drafts, s.minted, n, a.row.payload.eventId);
  }

  lemma ConsumeStep(s: State, a: Action)
    requires Inv(s) && Enabled(s, a) && (a.Consume? || a.TryMark?)
    ensures Inv(Apply(s, a))
  {
    if a.Consume? {
      C.ReachableStep(s.partition, a.consumer);
      assert C.Apply(s.partition, a.consumer).log == s.partition.log;
    }
  }

  lemma StepKeepsInv(s: State, a: Action)
    requires Inv(s) && Enabled(s, a)
    ensures Inv(Apply(s, a))
  {
    match a
    case Dispatch(_, _) => DispatchStep(s, a);
    case Consume(_) => ConsumeStep(s, a);
    case TryMark(_, _) => ConsumeStep(s, a);
    case Commit(_) => CommitStep(s, a);
    case OtherEvent(_) => OtherStep(s, a);
    case _ => DraftStep(s, a);
  }

  // ----- over whole runs

  ghost predicate Runs(s: State, acts: seq<Action>)
    decreases acts
  {
    acts == [] || (Enabled(s, acts[0]) && Runs(Apply(s, acts[0]), acts[1..]))
  }

  ghost function After(s: State, acts: seq<Action>): State
    requires Runs(s, acts)
    decreases acts
  {
    if acts == [] then s else After(Apply(s, acts[0]), acts[1..])
  }

  lemma {:induction false} RunKeepsInv(s: State, acts: seq<Action>)
    requires Inv(s) && Runs(s, acts)
    ensures Inv(After(s, acts))
    decreases acts
  {
    if acts != [] {
      StepKeepsInv(s, acts[0]);
      RunKeepsInv(Apply(s, acts[0]), acts[1..]);
    }
  }

  lemma InvOf(acts: seq<Action>)
    requires Runs(Init(), acts)
    ensures Inv(After(Init(), acts))
  {
    assert OT.Runs(O.Init(), []) && OT.After(O.Init(), []) == O.Init();
    assert C.Runs(C.Init(), []) && C.After(C.Init(), []) == C.Init();
    RunKeepsInv(Init(), acts);
  }

  ghost predicate Reachable(s: State) {
    exists acts :: Runs(Init(), acts) && After(Init(), acts) == s
  }

  lemma {:induction false} RunsSnoc(s: State, acts: seq<Action>, a: Action)
    requires Runs(s, acts) && Enabled(After(s, acts), a)
    ensures Runs(s, acts + [a]) && After(s, acts + [a]) == Apply(After(s, acts), a)
    decreases acts
  {
    if acts == [] {
      assert Runs(Apply(s, a), []);
      assert ([a])[1..] == [];
    } else {
      RunsSnoc(Apply(s, acts[0]), acts[1..], a);
      assert (acts + [a])[1..] == acts[1..] + [a];
    }
  }

  lemma ReachableStep(s: State, a: Action)
    requires Reachable(s) && Enabled(s, a)
    ensures Reachable(Apply(s, a))
  {
    var acts :| Runs(Init(), acts) && After(Init(), acts) == s;
    RunsSnoc(Init(), acts, a);
  }

  lemma ReachableInv(s: State)
    requires Reachable(s)
    ensures Inv(s)
  {
    var acts :| Runs(Init(), acts) && After(Init(), acts) == s;
    InvOf(acts);
  }

  /**
   However registrations interleave and wherever they stop: a user has exactly one credential and exactly
   one registration row, and there is neither without a user.
   */
  lemma OneRowPerRegistration(acts: seq<Action>, userId: nat)
    requires Runs(Init(), acts)
    ensures var s := After(Init(), acts);
            && (userId in s.users <==> userId in s.credentials)
            && |RegistrationRows(s.outbox.rows, userId)| == if userId in s.users then 1 else 0
  {
    InvOf(acts);
    RowsOfUser(After(Init(), acts).users.Keys, After(Init(), acts).outbox.rows, userId);
  }

  ghost function RegistrationRows(rows: map<int, Row>, userId: nat): set<int> {
    set id | id in rows && IsRegistration(rows[id], userId)
  }

  lemma RowsOfUser(users: set<nat>, rows: map<int, Row>, u: nat)
    requires AnnouncedInv(Names(users), Registrations(rows))
    ensures |RegistrationRows(rows, u)| == if u in users then 1 else 0
  {
    var keys, name := Registrations(rows), Some(Decimal(u));
    var mine := RegistrationRows(rows, u);
    forall id
      ensures id in mine <==> id in keys && keys[id] == name
    {
      assert id in mine <==> id in rows && IsRegistration(rows[id], u);
    }
    if u in users {
      assert name in Names(users);
      var id :| id in keys && keys[id] == name;
      assert forall x :: x in mine ==> x == id;
      assert mine == {id};
    } else {
      NewName(users, u);
      assert forall x :: x !in mine;
      assert mine == {};
    }
  }

  /** A consumer wins an event at most once, however often the event is delivered again. */
  lemma WinsAtMostOnce(acts: seq<Action>, i: nat, j: nat)
    requires Runs(Init(), acts) && i < j < |After(Init(), acts).wins|
    ensures After(Init(), acts).wins[i] != After(Init(), acts).wins[j]
  {
    InvOf(acts);
  }

  /** The event is one of these rows'. */
  ghost predicate EventAmong(rows: map<int, Row>, ids: set<int>, eventId: string) {
    exists id :: id in ids && id in rows && rows[id].payload.eventId == eventId
  }

  /** The wins of a consumer on events of a user's registration. */
  ghost function RegistrationWins(s: State, consumer: string, userId: nat): set<int> {
    set k | 0 <= k < |s.wins| && s.wins[k].consumer == consumer
            && EventAmong(s.outbox.rows, RegistrationRows(s.outbox.rows, userId), s.wins[k].eventId)
  }

  /**
   End to end: however registrations, workers, resends, members and redeliveries interleave and stop, a
   consumer wins the registration of a user at most once, and never that of somebody who is no user.
   */
  lemma RegistrationWonAtMostOnce(acts: seq<Action>, consumer: string, userId: nat)
    requires Runs(Init(), acts)
    ensures var s := After(Init(), acts);
            |RegistrationWins(s, consumer, userId)| <= if userId in s.users then 1 else 0
  {
    InvOf(acts);
    var s := After(Init(), acts);
    OneRowPerRegistration(acts, userId);
    OneWin(s.wins, s.outbox.rows, RegistrationRows(s.outbox.rows, userId), consumer, s.processed);
    var won := RegistrationWins(s, consumer, userId);
    AtMostOne(won);
    if userId !in s.users {
      assert RegistrationRows(s.outbox.rows, userId) == {};
      assert won == {};
    }
  }

  lemma OneWin(wins: seq<Mark>, rows: map<int, Row>, ids: set<int>, consumer: string, processed: set<Mark>)
    requires WinsInv(wins, processed) && |ids| <= 1
    ensures forall i, j :: 0 <= i < |wins| && 0 <= j < |wins| && wins[i].consumer == consumer
                           && wins[j].consumer == consumer && EventAmong(rows, ids, wins[i].eventId)
                           && EventAmong(rows, ids, wins[j].eventId)
                           ==> i == j
  {
    forall i, j | 0 <= i < |wins| && 0 <= j < |wins| && wins[i].consumer == consumer && wins[j].consumer == consumer
                  && EventAmong(rows, ids, wins[i].eventId) && EventAmong(rows, ids, wins[j].eventId)
      ensures i == j
    {
      var x :| x in ids && x in rows && rows[x].payload.eventId == wins[i].eventId;
      var y :| y in ids && y in rows && rows[y].payload.eventId == wins[j].eventId;
      if x != y {
        AtLeastTwo(ids, x, y);
      }
      assert wins[i] == wins[j];
    }
  }

  lemma AtLeastTwo(ids: set<int>, x: int, y: int)
    requires x in ids && y in ids && x != y
    ensures |ids| >= 2
  {
    assert ids == {x, y} + (ids - {x, y});
  }

  lemma AtMostOne(ids: set<int>)
    requires forall i, j :: i in ids && j in ids ==> i == j
    ensures |ids| <= 1
  {
    if ids != {} {
      IntSets.NonEmpty(ids);
      var i: int :| i in ids;
      assert forall x :: x in ids ==> x == i;
      assert ids == {i};
    }
  }

  /** The run ends with a further win of the mark. */
  ghost predicate WinsLater(s: State, acts: seq<Action>, mark: Mark) {
    Runs(s, acts) && |After(s, acts).wins| > |s.wins| && mark in After(s, acts).wins[|s.wins|..]
  }

  lemma {:induction false} MarkedForever(s: State, acts: seq<Action>, mark: Mark)
    requires Runs(s, acts) && mark in s.processed
    ensures s.wins <= After(s, acts).wins && mark !in After(s, acts).wins[|s.wins|..]
    decreases acts
  {
    if acts != [] {
      var s', s'' := Apply(s, acts[0]), After(s, acts);
      MarkedForever(s', acts[1..], mark);
      assert s.wins <= s'.wins;
      assert s''.wins[|s.wins|..] == s'.wins[|s.wins|..] + s''.wins[|s'.wins|..];
    }
  }

  /**
   From any state a consumer can still win an event if and only if it is not marked: an event whose mark was
   inserted with the answer lost is won by nobody, however often it is delivered again.
   */
  lemma WinnableExactlyWhenUnmarked(s: State, mark: Mark)
    ensures (exists acts :: WinsLater(s, acts, mark)) <==> mark !in s.processed
  {
    if mark in s.processed {
      forall acts | Runs(s, acts)
        ensures !WinsLater(s, acts, mark)
      {
        MarkedForever(s, acts, mark);
      }
    } else {
      var a := TryMark(mark, true);
      assert Runs(s, []) && After(s, []) == s;
      RunsSnoc(s, [], a);
      assert Apply(s, a).wins[|s.wins|..] == [mark];
      assert WinsLater(s, [] + [a], mark);
    }
  }

  // ----- where the messages of an event come from

  /** The offsets at which an event stands. */
  ghost function Offsets(s: State, eventId: string): set<int> {
    set o | 0 <= o < |s.partition.log| && s.partition.log[o].value.eventId == eventId
  }

  /** Row `id` is the only one with this event id and hand-off `k` the only one of the row. */
  ghost predicate OneSource(s: State, eventId: string, id: int, k: int) {
    && id in s.outbox.rows && s.outbox.rows[id].payload.eventId == eventId
    && (forall x :: x in s.outbox.rows && s.outbox.rows[x].payload.eventId == eventId ==> x == id)
    && 0 <= k < |s.outbox.handed| && s.outbox.handed[k].id == id
    && (forall x :: 0 <= x < |s.outbox.handed| && s.outbox.handed[x].id == id ==> x == k)
    && (forall o :: o in Offsets(s, eventId) ==> IsCopy(s.partition.log[o], s.outbox.rows[id]))
    && |Offsets(s, eventId)| == s.outbox.handed[k].copies
  }

  ghost function Places(topic: seq<int>, id: int): set<int> {
    set o | 0 <= o < |topic| && topic[o] == id
  }

  lemma {:induction false} PlacesCount(topic: seq<int>, id: int)
    ensures |Places(topic, id)| == O.Count(topic, id)
  {
    if topic != [] {
      var n, init := |topic| - 1, topic[..|topic| - 1];
      PlacesCount(init, id);
      assert topic == init + [topic[n]];
      assert Places(topic, id) == if topic[n] == id then Places(init, id) + {n} else Places(init, id);
    } else {
      assert Places(topic, id) == {};
    }
  }

  lemma SourceOf(s: State, eventId: string) returns (id: int, k: int)
    requires OT.Reachable(s.outbox) && IdsInv(EventIds(s.outbox.rows), s.drafts, s.minted)
    requires LogInv(s.partition.log, s.outbox.topic, s.outbox.rows) && Offsets(s, eventId) != {}
    ensures OneSource(s, eventId, id, k)
  {
    var o :| o in Offsets(s, eventId);
    id := s.outbox.topic[o];
    var ids := EventIds(s.outbox.rows);
    forall x | 0 <= x < |s.partition.log|
      ensures s.outbox.topic[x] in ids && s.partition.log[x].value.eventId == ids[s.outbox.topic[x]]
    {
      assert IsCopy(s.partition.log[x], s.outbox.rows[s.outbox.topic[x]]);
    }
    assert Offsets(s, eventId) == Places(s.outbox.topic, id);
    PlacesCount(s.outbox.topic, id);
    assert forall x :: x in s.outbox.rows ==> s.outbox.rows[x].payload.eventId == ids[x];
    k := HandOffOf(s.outbox, id);
  }

  /** The one hand-off behind a message in the topic. */
  lemma HandOffOf(s: O.State, id: int) returns (k: int)
    requires OT.Reachable(s) && id in s.topic
    ensures 0 <= k < |s.handed| && s.handed[k].id == id && s.handed[k].copies == O.Count(s.topic, id)
    ensures forall x :: 0 <= x < |s.handed| && s.handed[x].id == id ==> x == k
  {
    OT.ReachableInv(s);
    assert O.Handed(s, id);
    k :| 0 <= k < |s.handed| && s.handed[k].id == id;
  }

  /**
   An event that stands in the partition was recorded in one outbox row and handed to Publish once; every
   message of it is that row's, and there are as many as the writer delivered. So it stands at one
   offset if and only if that hand-off delivered one copy.
   */
  lemma EventComesFromOneHandOff(acts: seq<Action>, eventId: string) returns (id: int, k: int)
    requires Runs(Init(), acts) && Offsets(After(Init(), acts), eventId) != {}
    ensures OneSource(After(Init(), acts), eventId, id, k)
    ensures (exists o :: Offsets(After(Init(), acts), eventId) == {o})
            <==> After(Init(), acts).outbox.handed[k].copies == 1
  {
    InvOf(acts);
    id, k := SourceOf(After(Init(), acts), eventId);
    Singleton(Offsets(After(Init(), acts), eventId));
  }

  lemma Singleton(s: set<int>)
    requires s != {}
    ensures (exists o :: s == {o}) <==> |s| == 1
  {
    IntSets.NonEmpty(s);
    var o: int :| o in s;
    if |s| == 1 {
      assert |s - {o}| == 0;
      assert s == {o};
    }
  }

  /** A row the pipeline can record: of another event, or of a user's registration. */
  ghost predicate Recordable(row: Row) {
    row.state == Pending && (row.eventType != REGISTERED || exists u :: IsRegistration(row, u))
  }

  /** The first row of the table. */
  lemma OneRecorded(row: Row) returns (acts: seq<Action>)
    requires Recordable(row)
    ensures Runs(Init(), acts) && After(Init(), acts).partition.log == []
    ensures After(Init(), acts).outbox == O.State(map[0 := row], 1, map[], [], [])
  {
    assert Runs(Init(), []) && After(Init(), []) == Init();
    acts := [];
    if row.eventType != REGISTERED {
      RunsSnoc(Init(), acts, OtherEvent(row));
      acts := acts + [OtherEvent(row)];
    } else {
      var u :| IsRegistration(row, u);
      RunsSnoc(Init(), acts, InsertUser(0, u, ""));
      acts := acts + [InsertUser(0, u, "")];
      RunsSnoc(Init(), acts, InsertCredential(0, ""));
      acts := acts + [InsertCredential(0, "")];
      RunsSnoc(Init(), acts, Record(0, row));
      acts := acts + [Record(0, row)];
      assert row.(state := Pending) == row;
      RunsSnoc(Init(), acts, Commit(0));
      acts := acts + [Commit(0)];
    }
  }

  /** The row is claimed by a worker. */
  lemma OneClaimed(row: Row) returns (acts: seq<Action>)
    requires Recordable(row)
    ensures Runs(Init(), acts) && After(Init(), acts).partition.log == []
    ensures After(Init(), acts).outbox
            == O.State(map[0 := row.(state := Publishing)], 1, map[0 := O.Worker([0], None)], [], [])
  {
    acts := OneRecorded(row);
    RunsSnoc(Init(), acts, Dispatch(O.Claim(0, [0]), 0));
    acts := acts + [Dispatch(O.Claim(0, [0]), 0)];
  }

  /** One hand-off of any row can put its event at two offsets: the writer resends what was not acknowledged. */
  lemma ResendStandsTwice(row: Row)
    requires Recordable(row)
    ensures exists acts :: Runs(Init(), acts) && |Offsets(After(Init(), acts), row.payload.eventId)| == 2
  {
    var acts := OneClaimed(row);
    RunsSnoc(Init(), acts, Dispatch(O.Publish(0, true, 2), 0));
    TwoCopies(After(Init(), acts), row.(state := Publishing));
  }

  lemma TwoCopies(s: State, row: Row)
    requires s.outbox == O.State(map[0 := row], 1, map[0 := O.Worker([0], None)], [], []) && s.partition.log == []
    ensures |Offsets(Apply(s, Dispatch(O.Publish(0, true, 2), 0)), row.payload.eventId)| == 2
  {
    var s' := Apply(s, Dispatch(O.Publish(0, true, 2), 0));
    TwoArrive(s);
    TwoMessages(s.outbox.rows, row.payload.eventId);
    assert Offsets(s', row.payload.eventId) == {0, 1};
  }

  lemma TwoArrive(s: State)
    requires O.Enabled(s.outbox, O.Publish(0, true, 2)) && s.outbox.workers[0].batch[0] == 0
    requires 0 in s.outbox.rows && s.partition.log == []
    ensures Apply(s, Dispatch(O.Publish(0, true, 2), 0)).partition.log == Messages(s.outbox.rows, [0, 0], 0)
  {
    assert Added(s.outbox, O.Publish(0, true, 2)) == [0, 0];
  }

  lemma TwoMessages(rows: map<int, Row>, eventId: string)
    requires 0 in rows && rows[0].payload.eventId == eventId
    ensures var log := Messages(rows, [0, 0], 0);
            |log| == 2 && log[0].value.eventId == eventId && log[1].value.eventId == eventId
  {}
}
