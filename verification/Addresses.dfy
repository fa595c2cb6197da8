/**
 Shipping addresses: the default-address rule under concurrent transactions. Each statement is a step.
 A transaction's writes are private until it commits and a written row is locked. An UPDATE works on the
 rows its snapshot shows: one that waited for a lock does not see rows inserted meanwhile. The
 partial unique index on (user_id) WHERE is_default makes a second default wait for an
 uncommitted one and fail on a committed one.
 */
module Addresses {
  import opened Wrappers

  /** `content` stands for the recipient and location columns. */
  datatype Row = Row(userId: int, content: string, isDefault: bool)

  type Table = map<int, Row>

  /** AddAddress, or UpdateAddress of the row `id`. */
  datatype Request =
    | Add(content: string, isDefault: bool)
    | Change(id: int, content: string, isDefault: bool)

  /** `todo` holds the rows UnsetDefaultByUserID has yet to write. */
  datatype Stage = Begun | Clearing(todo: set<int>) | Wrote | Failed

  datatype Txn = Txn(userId: int, request: Request, stage: Stage, writes: Table)

  /**
   `owners` tells for whom each id of the sequence was drawn; the sequence hands out no id twice, rolled
   back or not. `ended` tells of each finished transaction whether it committed.
   */
  datatype State = State(rows: Table, owners: map<int, int>, txs: map<int, Txn>, ended: map<int, bool>)

  datatype Action =
    | Begin(pid: int, userId: int, request: Request)
    | Snapshot(pid: int)
    | Unset(pid: int, id: int)
    | Write(pid: int, id: int)
    | Violate(pid: int)
    | Commit(pid: int)
    | Abort(pid: int)
    | Delete(userId: int, id: int)

  function Init(): State { State(map[], map[], map[], map[]) }

  function IdsOf(rows: Table, userId: int): set<int> {
    set id | id in rows && rows[id].userId == userId
  }

  ghost predicate LockedByOther(txs: map<int, Txn>, pid: int, id: int) {
    exists q :: q in txs && q != pid && id in txs[q].writes
  }

  ghost predicate Locked(txs: map<int, Txn>, id: int) {
    exists q :: q in txs && id in txs[q].writes
  }

  /** The transaction has an uncommitted default row. */
  ghost predicate Claims(t: Txn) {
    exists id :: id in t.writes && t.writes[id].isDefault
  }

  /** Another transaction of the user has an uncommitted default row: the index makes this one wait. */
  ghost predicate Contended(txs: map<int, Txn>, pid: int)
    requires pid in txs
  {
    exists q :: q in txs && q != pid && txs[q].userId == txs[pid].userId && Claims(txs[q])
  }

  /** Row `id` is a committed default of the user that the transaction has not written: the index is violated by it. */
  predicate Bars(rows: Table, t: Txn, self: int, id: int) {
    id in rows && rows[id].userId == t.userId && rows[id].isDefault && id !in t.writes && id != self
  }

  ghost predicate Barred(rows: Table, t: Txn, self: int) {
    exists id :: Bars(rows, t, self, id)
  }

  /** The transaction is at its INSERT or UPDATE: a default has been taken from the rows of the snapshot. */
  predicate AtWrite(t: Txn) {
    if t.request.isDefault then t.stage == Clearing({}) else t.stage == Begun
  }

  /** The row the statement is about: a new one, from the sequence, or the one to change if it is still there. */
  ghost predicate Target(s: State, pid: int, id: int)
    requires pid in s.txs
  {
    match s.txs[pid].request
    case Add(_, _) => id !in s.owners
    case Change(own, _, _) => id == own && id in s.rows && !LockedByOther(s.txs, pid, id)
  }

  ghost predicate Enabled(s: State, a: Action) {
    match a
    case Begin(pid, userId, request) =>
      && pid !in s.txs && pid !in s.ended
      && (request.Change? ==> request.id in s.rows && s.rows[request.id].userId == userId)
    case Snapshot(pid) => pid in s.txs && s.txs[pid].request.isDefault && s.txs[pid].stage == Begun
    case Unset(pid, id) =>
      && pid in s.txs && s.txs[pid].stage.Clearing? && id in s.txs[pid].stage.todo
      && !LockedByOther(s.txs, pid, id)
    case Write(pid, id) =>
      && pid in s.txs && AtWrite(s.txs[pid]) && Target(s, pid, id)
      && (s.txs[pid].request.isDefault ==> !Contended(s.txs, pid) && !Barred(s.rows, s.txs[pid], id))
    case Violate(pid) =>
      && pid in s.txs && AtWrite(s.txs[pid]) && s.txs[pid].request.isDefault
      && exists id :: Target(s, pid, id) && Barred(s.rows, s.txs[pid], id)
    case Commit(pid) => pid in s.txs && s.txs[pid].stage == Wrote
    case Abort(pid) => pid in s.txs
    case Delete(userId, id) => id in s.rows && s.rows[id].userId == userId && !Locked(s.txs, id)
  }

  /** UnsetDefaultByUserID on one row; a row deleted since the snapshot is skipped. */
  function Cleared(rows: Table, t: Txn, id: int): Txn
    requires t.stage.Clearing?
  {
    t.(stage := Clearing(t.stage.todo - {id}),
    writes := if id in rows then t.writes[id := rows[id].(isDefault := false)] else t.writes)
  }

  function Written(t: Txn, id: int): Txn {
    t.(stage := Wrote, writes := t.writes[id := Row(t.userId, t.request.content, t.request.isDefault)])
  }

  ghost function Apply(s: State, a: Action): State
    requires Enabled(s, a)
  {
    match a
    case Begin(pid, userId, request) => s.(txs := s.txs[pid := Txn(userId, request, Begun, map[])])
    case Snapshot(pid) =>
      s.(txs := s.txs[pid := s.txs[pid].(stage := Clearing(IdsOf(s.rows, s.txs[pid].userId)))])
    case Unset(pid, id) => s.(txs := s.txs[pid := Cleared(s.rows, s.txs[pid], id)])
    case Write(pid, id) =>
      s.(txs := s.txs[pid := Written(s.txs[pid], id)], owners := s.owners[id := s.txs[pid].userId])
    case Violate(pid) => s.(txs := s.txs[pid := s.txs[pid].(stage := Failed)])
    case Commit(pid) =>
      s.(rows := s.rows + s.txs[pid].writes, txs := s.txs - {pid}, ended := s.ended[pid := true])
    case Abort(pid) => s.(txs := s.txs - {pid}, ended := s.ended[pid := false])
    case Delete(_, id) => s.(rows := s.rows - {id})
  }

  // ----- what every reachable state satisfies

  /** At most one default row per user. */
  ghost predicate OneDefault(rows: Table) {
    forall i, j ::
      i in rows && j in rows && rows[i].userId == rows[j].userId && rows[i].isDefault && rows[j].isDefault ==> i == j
  }

  ghost predicate Owned(ids: set<int>, owners: map<int, int>, userId: int) {
    forall id :: id in ids ==> id in owners && owners[id] == userId
  }

  /** The rows a transaction is about are its user's. */
  ghost predicate OwnRows(t: Txn, owners: map<int, int>) {
    && Owned(t.writes.Keys, owners, t.userId)
    && (forall id :: id in t.writes ==> t.writes[id].userId == t.userId)
    && (t.stage.Clearing? ==> Owned(t.stage.todo, owners, t.userId))
    && (t.request.Change? ==> Owned({t.request.id}, owners, t.userId))
  }

  /** A transaction has a default row once it has written one, and then one only. */
  ghost predicate DefaultRows(t: Txn) {
    && (Claims(t) <==> t.stage == Wrote && t.request.isDefault)
    && OneDefault(t.writes)
  }

  /** Rows stay with their owners, and no two transactions write one row. */
  ghost predicate WritesInv(s: State) {
    && (forall id :: id in s.rows ==> id in s.owners && s.owners[id] == s.rows[id].userId)
    && (forall p :: p in s.txs ==> OwnRows(s.txs[p], s.owners) && DefaultRows(s.txs[p]) && p !in s.ended)
    && (forall p, q, id :: p in s.txs && q in s.txs && p != q && id in s.txs[p].writes ==> id !in s.txs[q].writes)
  }

  /** A claim is the only one for its user, and covers whatever default is committed. */
  ghost predicate ClaimsInv(s: State) {
    && (forall p, q :: p in s.txs && q in s.txs && p != q && s.txs[p].userId == s.txs[q].userId ==>
                         !(Claims(s.txs[p]) && Claims(s.txs[q])))
    && (forall p, id :: p in s.txs && Claims(s.txs[p]) && id in s.rows && s.rows[id].isDefault
                        && s.rows[id].userId == s.txs[p].userId
                        ==> id in s.txs[p].writes)
  }

  /** A request that installs no default writes its one row: the row to change, or a row not yet committed. */
  ghost predicate PlainRows(t: Txn, rows: Table) {
    !t.request.isDefault ==>
      && !t.stage.Clearing? && (t.stage != Wrote ==> t.writes == map[])
      && (t.stage == Wrote && t.request.Change? ==> t.writes.Keys == {t.request.id})
      && (t.stage == Wrote && t.request.Add? ==> forall id :: id in t.writes ==> id !in rows)
  }

  /** Nobody but its inserter knows of a row that was inserted and not committed. */
  ghost predicate HiddenInv(s: State) {
    forall p, id :: p in s.txs && id in s.txs[p].writes && id !in s.rows ==>
                      forall q :: q in s.txs ==> !Knows(s.txs[q], id)
  }

  ghost predicate PlainInv(s: State) {
    forall p :: p in s.txs ==> PlainRows(s.txs[p], s.rows)
  }

  predicate Knows(t: Txn, id: int) {
    (t.stage.Clearing? && id in t.stage.todo) || (t.request.Change? && t.request.id == id)
  }

  ghost predicate Inv(s: State) {
    OneDefault(s.rows) && WritesInv(s) && ClaimsInv(s) && HiddenInv(s) && PlainInv(s)
  }

  // ----- rows stay with their owners

  lemma StageKeepsOwn(t: Txn, rows: Table, owners: map<int, int>, stage: Stage)
    requires OwnRows(t, owners) && DefaultRows(t) && t.stage == Begun && !stage.Wrote?
    requires stage.Clearing? ==> stage.todo == IdsOf(rows, t.userId)
    requires forall id :: id in rows ==> id in owners && owners[id] == rows[id].userId
    ensures OwnRows(t.(stage := stage), owners) && DefaultRows(t.(stage := stage))
  {
    assert Claims(t.(stage := stage)) == Claims(t);
  }

  lemma FailureKeepsOwn(t: Txn, owners: map<int, int>)
    requires OwnRows(t, owners) && DefaultRows(t) && t.stage != Wrote
    ensures OwnRows(t.(stage := Failed), owners) && DefaultRows(t.(stage := Failed))
  {
    assert Claims(t.(stage := Failed)) == Claims(t);
  }

  lemma UnsetKeepsOwn(t: Txn, rows: Table, owners: map<int, int>, id: int)
    requires OwnRows(t, owners) && DefaultRows(t) && t.stage.Clearing? && id in t.stage.todo
    requires forall id :: id in rows ==> id in owners && owners[id] == rows[id].userId
    ensures OwnRows(Cleared(rows, t, id), owners) && DefaultRows(Cleared(rows, t, id))
  {
    assert !Claims(t) && !Claims(Cleared(rows, t, id));
  }

  lemma OthersStayOwn(t: Txn, owners: map<int, int>, id: int, userId: int)
    requires OwnRows(t, owners) && (id in owners ==> owners[id] == userId)
    ensures OwnRows(t, owners[id := userId])
  {}

  lemma WrittenIsOwn(t: Txn, owners: map<int, int>, id: int)
    requires OwnRows(t, owners) && DefaultRows(t) && t.stage != Wrote && (id in owners ==> owners[id] == t.userId)
    ensures OwnRows(Written(t, id), owners[id := t.userId]) && DefaultRows(Written(t, id))
  {
    OthersStayOwn(t, owners, id, t.userId);
    assert !Claims(t);
    assert Written(t, id).writes[id].isDefault == t.request.isDefault;
  }

  lemma WriteKeepsWrites(s: State, a: Action)
    requires WritesInv(s) && Enabled(s, a) && a.Write?
    ensures WritesInv(Apply(s, a))
  {
    var s', t := Apply(s, a), s.txs[a.pid];
    assert a.id in s.owners ==> s.owners[a.id] == t.userId;
    WrittenIsOwn(t, s.owners, a.id);
    forall p | p in s.txs && p != a.pid
      ensures OwnRows(s.txs[p], s'.owners) && a.id !in s.txs[p].writes
    {
      OthersStayOwn(s.txs[p], s.owners, a.id, t.userId);
    }
  }

  /** A transaction moves on within its own rows, and writes none that another has written. */
  lemma MoveKeepsWrites(s: State, p: int, t: Txn)
    requires WritesInv(s) && p in s.txs && OwnRows(t, s.owners) && DefaultRows(t)
    requires forall q, id :: q in s.txs && q != p && id in s.txs[q].writes ==> id !in t.writes
    ensures WritesInv(s.(txs := s.txs[p := t]))
  {}

  lemma UnsetKeepsWrites(s: State, a: Action)
    requires WritesInv(s) && Enabled(s, a) && a.Unset?
    ensures WritesInv(Apply(s, a))
  {
    var t := Cleared(s.rows, s.txs[a.pid], a.id);
    UnsetKeepsOwn(s.txs[a.pid], s.rows, s.owners, a.id);
    assert t.writes.Keys <= s.txs[a.pid].writes.Keys + {a.id};
    MoveKeepsWrites(s, a.pid, t);
  }

  lemma StageKeepsWrites(s: State, a: Action)
    requires WritesInv(s) && Enabled(s, a) && (a.Snapshot? || a.Violate?)
    ensures WritesInv(Apply(s, a))
  {
    var t, t' := s.txs[a.pid], Apply(s, a).txs[a.pid];
    if a.Snapshot? {
      StageKeepsOwn(t, s.rows, s.owners, t'.stage);
    } else {
      FailureKeepsOwn(t, s.owners);
    }
    MoveKeepsWrites(s, a.pid, t');
  }

  lemma BeginKeepsWrites(s: State, a: Action)
    requires WritesInv(s) && Enabled(s, a) && a.Begin?
    ensures WritesInv(Apply(s, a))
  {
    var t := Apply(s, a).txs[a.pid];
    assert !Claims(t) && OwnRows(t, s.owners) && DefaultRows(t);
  }

  lemma EndKeepsWrites(s: State, a: Action)
    requires WritesInv(s) && Enabled(s, a) && (a.Commit? || a.Abort? || a.Delete?)
    ensures WritesInv(Apply(s, a))
  {}

  lemma KeepsWrites(s: State, a: Action)
    requires WritesInv(s) && Enabled(s, a)
    ensures WritesInv(Apply(s, a))
  {
    match a
    case Begin(_, _, _) => BeginKeepsWrites(s, a);
    case Snapshot(_) => StageKeepsWrites(s, a);
    case Violate(_) => StageKeepsWrites(s, a);
    case Unset(_, _) => UnsetKeepsWrites(s, a);
    case Write(_, _) => WriteKeepsWrites(s, a);
    case _ => EndKeepsWrites(s, a);
  }

  // ----- one default

  lemma CommitKeepsDefault(s: State, a: Action)
    requires OneDefault(s.rows) && WritesInv(s) && ClaimsInv(s) && Enabled(s, a) && a.Commit?
    ensures OneDefault(Apply(s, a).rows)
  {}

  lemma WriteKeepsClaims(s: State, a: Action)
    requires WritesInv(s) && ClaimsInv(s) && Enabled(s, a) && a.Write?
    ensures ClaimsInv(Apply(s, a))
  {
    var s', t := Apply(s, a), s.txs[a.pid];
    assert !Claims(t);
    if Claims(s'.txs[a.pid]) {
      var id :| id in s'.txs[a.pid].writes && s'.txs[a.pid].writes[id].isDefault;
      assert id == a.id && t.request.isDefault;
      forall id | id in s.rows && s.rows[id].isDefault && s.rows[id].userId == t.userId
        ensures id in s'.txs[a.pid].writes
      {
        assert !Bars(s.rows, t, a.id, id);
      }
    }
  }

  /** Before it writes, a transaction claims nothing, and unsetting rows does not change that. */
  lemma UnclaimedStage(s: State, a: Action)
    requires WritesInv(s) && Enabled(s, a) && (a.Snapshot? || a.Unset? || a.Violate?)
    ensures !Claims(s.txs[a.pid]) && !Claims(Apply(s, a).txs[a.pid])
  {
    KeepsWrites(s, a);
    assert DefaultRows(s.txs[a.pid]);
  }

  /** A transaction that claims nothing before and after a move leaves the claims as they are. */
  lemma MoveKeepsClaims(s: State, p: int, t: Txn)
    requires ClaimsInv(s) && !Claims(t)
    ensures ClaimsInv(s.(txs := s.txs[p := t]))
  {}

  lemma EndKeepsClaims(s: State, a: Action)
    requires WritesInv(s) && ClaimsInv(s) && Enabled(s, a) && (a.Commit? || a.Abort? || a.Delete?)
    ensures ClaimsInv(Apply(s, a))
  {}

  lemma KeepsClaims(s: State, a: Action)
    requires WritesInv(s) && ClaimsInv(s) && Enabled(s, a)
    ensures ClaimsInv(Apply(s, a))
  {
    match a
    case Write(_, _) => WriteKeepsClaims(s, a);
    case Begin(p, userId, request) => MoveKeepsClaims(s, p, Txn(userId, request, Begun, map[]));
    case Snapshot(p) =>
      UnclaimedStage(s, a);
      MoveKeepsClaims(s, p, Apply(s, a).txs[p]);
    case Unset(p, _) =>
      UnclaimedStage(s, a);
      MoveKeepsClaims(s, p, Apply(s, a).txs[p]);
    case Violate(p) =>
      UnclaimedStage(s, a);
      MoveKeepsClaims(s, p, Apply(s, a).txs[p]);
    case _ => EndKeepsClaims(s, a);
  }

  // ----- what a transaction knows and writes

  lemma KeepsHidden(s: State, a: Action)
    requires WritesInv(s) && HiddenInv(s) && Enabled(s, a)
    ensures HiddenInv(Apply(s, a))
  {}

  lemma KeepsPlain(s: State, a: Action)
    requires WritesInv(s) && PlainInv(s) && Enabled(s, a)
    ensures PlainInv(Apply(s, a))
  {}

  lemma StepKeepsInv(s: State, a: Action)
    requires Inv(s) && Enabled(s, a)
    ensures Inv(Apply(s, a))
  {
    KeepsWrites(s, a);
    KeepsClaims(s, a);
    KeepsHidden(s, a);
    KeepsPlain(s, a);
    if a.Commit? {
      CommitKeepsDefault(s, a);
    }
  }
}
