/**
 The HTTP idempotency protocol over expiring Redis keys, with any number of requests under way.
 An action is one Redis command or one local move; the GET and the SET of Complete are apart,
 a request may die anywhere, and the server clock advances on its own.
 */
module IdempotencyMachine {
  import opened Wrappers

  datatype Response = Response(code: int, body: string, headers: map<string, string>)

  datatype Status = InProgress | Completed

  datatype Record = Record(
    key: string,
    scope: string,
    status: Status,
    requestHash: string,
    response: Response,
    startedAt: int,
    completedAt: int)

  datatype Entry = Entry(record: Record, expiresAt: int)

  type Store = map<string, Entry>

  datatype Config = Config(inProgressTTL: int, completedTTL: int)

  /** NewService replaces a TTL that is not positive. */
  function NewConfig(c: Config): (r: Config)
    ensures r.inProgressTTL > 0 && r.completedTTL > 0
    ensures c.inProgressTTL > 0 ==> r.inProgressTTL == c.inProgressTTL
    ensures c.completedTTL > 0 ==> r.completedTTL == c.completedTTL
    ensures c.inProgressTTL <= 0 ==> r.inProgressTTL == 180
    ensures c.completedTTL <= 0 ==> r.completedTTL == 86400
  {
    Config(
      if c.inProgressTTL <= 0 then 3 * 60 else c.inProgressTTL,
      if c.completedTTL <= 0 then 24 * 60 * 60 else c.completedTTL)
  }

  const NO_RESPONSE := Response(0, "", map[])

  predicate Live(store: Store, key: string, now: int) {
    key in store && now < store[key].expiresAt
  }

  /** The record Begin reserves with. */
  function Reservation(key: string, scope: string, requestHash: string, clock: int): Record {
    Record(key, scope, InProgress, requestHash, NO_RESPONSE, clock, 0)
  }

  /** The record Complete writes back over the one it read. */
  function Completion(rec: Record, response: Response, clock: int): Record {
    rec.(status := Completed, completedAt := clock, response := response)
  }

  datatype Decision = Proceed | Replay(record: Record) | HashMismatch | Conflict

  /** BeginHTTP on a record that already exists. */
  function Decide(existing: Record, requestHash: string): Decision {
    if existing.requestHash != "" && requestHash != existing.requestHash then HashMismatch
    else if existing.status == Completed then Replay(existing)
    else Conflict
  }

  /** A request past its SETNX. `began` is the server time of the SETNX that reserved. */
  datatype Flight =
    | Looking(key: string, requestHash: string)
    | Running(key: string, requestHash: string, began: int)
    | Finished(key: string, requestHash: string, began: int, response: Response)
    | Writing(key: string, requestHash: string, began: int, response: Response, record: Record)

  datatype Event =
    | Started(key: string, at: int, pid: int, requestHash: string)
    | Wrote(key: string, at: int, pid: int, requestHash: string, began: int, response: Response)
    | Replayed(key: string, requestHash: string, response: Response)

  datatype State = State(now: int, store: Store, flights: map<int, Flight>, log: seq<Event>)

  datatype Action =
    | Tick(to: int)
    | Reserve(pid: int, key: string, scope: string, requestHash: string, clock: int)
    | Look(pid: int)
    | Finish(pid: int, response: Response)
    | Fetch(pid: int)
    | Write(pid: int, clock: int)
    | Die(pid: int)

  function Init(): State { State(0, map[], map[], []) }

  predicate Enabled(s: State, a: Action) {
    match a
    case Tick(to) => to >= s.now
    case Reserve(pid, _, _, _, _) => pid !in s.flights
    case Look(pid) => pid in s.flights && s.flights[pid].Looking?
    case Finish(pid, _) => pid in s.flights && s.flights[pid].Running?
    case Fetch(pid) => pid in s.flights && s.flights[pid].Finished?
    case Write(pid, _) => pid in s.flights && s.flights[pid].Writing?
    case Die(pid) => pid in s.flights
  }

  /** SETNX: it reserves when no live record stands in the way. */
  function ReserveAt(c: Config, s: State, pid: int, key: string, scope: string, requestHash: string, clock: int)
    : State
  {
    if Live(s.store, key, s.now) then s.(flights := s.flights[pid := Looking(key, requestHash)])
    else s.(store := s.store[key := Entry(Reservation(key, scope, requestHash, clock), s.now + c.inProgressTTL)],
         flights := s.flights[pid := Running(key, requestHash, s.now)],
         log := s.log + [Started(key, s.now, pid, requestHash)])
  }

  function Apply(c: Config, s: State, a: Action): State
    requires Enabled(s, a)
  {
    match a
    case Tick(to) => s.(now := to)
    case Reserve(pid, key, scope, requestHash, clock) => ReserveAt(c, s, pid, key, scope, requestHash, clock)
    case Look(pid) =>
      var f := s.flights[pid];
      var s' := s.(flights := s.flights - {pid});
      if !Live(s.store, f.key, s.now) then s'
      else (match Decide(s.store[f.key].record, f.requestHash)
            case Replay(rec) => s'.(log := s.log + [Replayed(f.key, f.requestHash, rec.response)])
            case _ => s')
    case Finish(pid, response) =>
      var f := s.flights[pid];
      s.(flights := s.flights[pid := Finished(f.key, f.requestHash, f.began, response)])
    case Fetch(pid) =>
      var f := s.flights[pid];
      if !Live(s.store, f.key, s.now) then s.(flights := s.flights - {pid})
      else s.(flights := s.flights[pid := Writing(f.key, f.requestHash, f.began, f.response, s.store[f.key].record)])
    case Write(pid, clock) =>
      var f := s.flights[pid];
      s.(store := s.store[f.key := Entry(Completion(f.record, f.response, clock), s.now + c.completedTTL)],
      flights := s.flights - {pid},
      log := s.log + [Wrote(f.key, s.now, pid, f.requestHash, f.began, f.response)])
    case Die(pid) => s.(flights := s.flights - {pid})
  }

  // ----- how far apart executions start

  /** The time until which an event keeps its key taken. */
  function Until(c: Config, e: Event): int {
    match e
    case Started(_, at, _, _) => at + c.inProgressTTL
    case Wrote(_, at, _, _, _, _) => at + c.completedTTL
    case Replayed(_, _, _) => 0
  }

  /** No execution of a key starts before the events on that key let go of it. */
  ghost predicate Spaced(c: Config, log: seq<Event>) {
    forall i, j :: 0 <= i < j < |log| && !log[i].Replayed? && log[j].Started? && log[i].key == log[j].key
                   ==> Until(c, log[i]) <= log[j].at
  }

  /** An event not yet run out is backed by a record that lives at least as long. */
  ghost predicate Backed(c: Config, s: State) {
    forall i :: 0 <= i < |s.log| && !s.log[i].Replayed? ==>
                  && s.log[i].at <= s.now
                  && (s.now < Until(c, s.log[i]) ==>
                        s.log[i].key in s.store && Until(c, s.log[i]) <= s.store[s.log[i].key].expiresAt)
  }

  lemma SpacingStep(c: Config, s: State, a: Action)
    requires c.inProgressTTL <= c.completedTTL
    requires Backed(c, s) && Spaced(c, s.log) && Enabled(s, a)
    ensures Backed(c, Apply(c, s, a)) && Spaced(c, Apply(c, s, a).log)
  {
    var s' := Apply(c, s, a);
    assert forall i :: 0 <= i < |s.log| ==> s'.log[i] == s.log[i];
  }

  // ----- executions that end in time

  predicate Executing(f: Flight) { !f.Looking? }

  /** Every execution under way began less than `d` ago. */
  ghost predicate Timely(d: int, s: State) {
    forall pid :: pid in s.flights && Executing(s.flights[pid]) ==> s.now < s.flights[pid].began + d
  }

  /** The latest event on a key that starts, or completes, an execution. */
  function Latest(log: seq<Event>, key: string, wrote: bool): Option<Event> {
    if log == [] then None
    else
      var e := log[|log| - 1];
      if e.key == key && (if wrote then e.Wrote? else e.Started?) then Some(e)
      else Latest(log[..|log| - 1], key, wrote)
  }

  /** `w` is the completion of the execution `e`. */
  predicate Completes(e: Event, w: Event) {
    e.Started? && w.Wrote? && w.key == e.key && w.pid == e.pid && w.began == e.at && w.requestHash == e.requestHash
  }

  /** The latest execution of the key has completed, with this hash and this response. */
  predicate CompletedBy(log: seq<Event>, key: string, requestHash: string, response: Response) {
    var e, w := Latest(log, key, false), Latest(log, key, true);
    && e.Some? && w.Some? && Completes(e.value, w.value)
    && w.value.requestHash == requestHash && w.value.response == response
  }

  /** A replay gives the response of the latest execution of its key, to a request with the same hash. */
  ghost predicate Faithful(log: seq<Event>) {
    forall k :: 0 <= k < |log| && log[k].Replayed? ==>
                  exists h :: (h == "" || h == log[k].requestHash)
                              && CompletedBy(log[..k], log[k].key, h, log[k].response)
  }

  /** The reservation of an execution under way stands, and is its own. */
  ghost predicate Owned(c: Config, s: State) {
    forall pid :: pid in s.flights && Executing(s.flights[pid]) ==>
                    var f := s.flights[pid];
                    && f.key in s.store
                    && s.store[f.key].expiresAt == f.began + c.inProgressTTL
                    && s.store[f.key].record.status == InProgress
                    && s.store[f.key].record.requestHash == f.requestHash
                    && (f.Writing? ==> f.record == s.store[f.key].record)
                    && Latest(s.log, f.key, false) == Some(Started(f.key, f.began, pid, f.requestHash))
  }

  /** One execution per key. */
  ghost predicate Alone(s: State) {
    forall p, q ::
      p in s.flights && q in s.flights && Executing(s.flights[p]) && Executing(s.flights[q]) && p != q
      ==> s.flights[p].key != s.flights[q].key
  }

  /** A completed record holds what the latest execution of its key produced. */
  ghost predicate Recorded(s: State) {
    forall key :: key in s.store && s.store[key].record.status == Completed ==>
                    CompletedBy(s.log, key, s.store[key].record.requestHash, s.store[key].record.response)
  }

  ghost predicate TimelyInv(c: Config, s: State) {
    Owned(c, s) && Alone(s) && Recorded(s) && Faithful(s.log)
  }

  lemma LatestSnoc(log: seq<Event>, e: Event, key: string, wrote: bool)
    ensures Latest(log + [e], key, wrote) ==
            if e.key == key && (if wrote then e.Wrote? else e.Started?) then Some(e) else Latest(log, key, wrote)
  {
    assert (log + [e])[..|log|] == log;
  }

  lemma FaithfulSnoc(log: seq<Event>, e: Event)
    requires Faithful(log)
    requires e.Replayed? ==> exists h :: (h == "" || h == e.requestHash) && CompletedBy(log, e.key, h, e.response)
    ensures Faithful(log + [e])
  {
    var l := log + [e];
    forall k | 0 <= k < |l| && l[k].Replayed?
      ensures exists h :: (h == "" || h == l[k].requestHash) && CompletedBy(l[..k], l[k].key, h, l[k].response)
    {
      if k < |log| {
        assert l[..k] == log[..k];
      } else {
        assert l[..k] == log;
      }
    }
  }

  /** A replay, or an event on another key, leaves a completed execution the latest. */
  lemma CompletedBySnoc(log: seq<Event>, e: Event, key: string, h: string, response: Response)
    requires CompletedBy(log, key, h, response)
    requires e.Replayed? || e.key != key
    ensures CompletedBy(log + [e], key, h, response)
  {
    LatestSnoc(log, e, key, false);
    LatestSnoc(log, e, key, true);
  }

  lemma ReserveKeeps(c: Config, d: int, s: State, a: Action)
    requires d <= c.inProgressTTL && TimelyInv(c, s) && Timely(d, s)
    requires Enabled(s, a) && a.Reserve?
    ensures TimelyInv(c, Apply(c, s, a))
  {
    if !Live(s.store, a.key, s.now) {
      var e := Started(a.key, s.now, a.pid, a.requestHash);
      var s' := Apply(c, s, a);
      FaithfulSnoc(s.log, e);
      assert forall pid :: pid in s.flights && Executing(s.flights[pid]) ==> s.flights[pid].key != a.key;
      forall key { LatestSnoc(s.log, e, key, false); }
      forall key | key in s'.store && s'.store[key].record.status == Completed
        ensures CompletedBy(s'.log, key, s'.store[key].record.requestHash, s'.store[key].record.response)
      {
        CompletedBySnoc(s.log, e, key, s.store[key].record.requestHash, s.store[key].record.response);
      }
    }
  }

  lemma LookKeeps(c: Config, s: State, a: Action)
    requires TimelyInv(c, s) && Enabled(s, a) && a.Look?
    ensures TimelyInv(c, Apply(c, s, a))
  {
    var f := s.flights[a.pid];
    if Live(s.store, f.key, s.now) && Decide(s.store[f.key].record, f.requestHash).Replay? {
      var e := Replayed(f.key, f.requestHash, s.store[f.key].record.response);
      FaithfulSnoc(s.log, e);
      forall key { LatestSnoc(s.log, e, key, false); }
      forall key | key in s.store && s.store[key].record.status == Completed
        ensures CompletedBy(s.log + [e], key, s.store[key].record.requestHash, s.store[key].record.response)
      {
        CompletedBySnoc(s.log, e, key, s.store[key].record.requestHash, s.store[key].record.response);
      }
    }
  }

  lemma WriteKeeps(c: Config, s: State, a: Action)
    requires TimelyInv(c, s) && Enabled(s, a) && a.Write?
    ensures TimelyInv(c, Apply(c, s, a))
  {
    var f := s.flights[a.pid];
    var e := Wrote(f.key, s.now, a.pid, f.requestHash, f.began, f.response);
    var s' := Apply(c, s, a);
    FaithfulSnoc(s.log, e);
    forall key { LatestSnoc(s.log, e, key, false); }
    forall key | key in s'.store && s'.store[key].record.status == Completed
      ensures CompletedBy(s'.log, key, s'.store[key].record.requestHash, s'.store[key].record.response)
    {
      if key == f.key {
        LatestSnoc(s.log, e, key, true);
      } else {
        CompletedBySnoc(s.log, e, key, s.store[key].record.requestHash, s.store[key].record.response);
      }
    }
  }

  lemma LocalKeeps(c: Config, s: State, a: Action)
    requires TimelyInv(c, s) && Enabled(s, a) && (a.Tick? || a.Finish? || a.Fetch? || a.Die?)
    ensures TimelyInv(c, Apply(c, s, a))
  {}

  lemma TimelyStep(c: Config, d: int, s: State, a: Action)
    requires d <= c.inProgressTTL && TimelyInv(c, s) && Timely(d, s) && Enabled(s, a)
    ensures TimelyInv(c, Apply(c, s, a))
  {
    match a
    case Reserve(_, _, _, _, _) => ReserveKeeps(c, d, s, a);
    case Look(_) => LookKeeps(c, s, a);
    case Write(_, _) => WriteKeeps(c, s, a);
    case _ => LocalKeeps(c, s, a);
  }
}
