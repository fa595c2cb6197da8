/**
 The idempotency store, service and middleware, one request at a time. `model` is the protocol
 state the calls lead to; what holds of every run of the protocol holds of it.
 */
module IdempotencyService {
  import opened Wrappers
  import opened IdempotencyKeys
  import opened IdempotencyMachine
  import opened IdempotencyTheorems

  /** What a handler does to its response writer: a status, writes in order, header values. */
  datatype Handler = Handler(status: int, writes: seq<string>, headers: map<string, seq<string>>)

  function Concat(parts: seq<string>): string {
    if parts == [] then "" else Concat(parts[..|parts| - 1]) + parts[|parts| - 1]
  }

  function Length(parts: seq<string>): nat {
    if parts == [] then 0 else Length(parts[..|parts| - 1]) + |parts[|parts| - 1]|
  }

  /** The writes stand one after the other: each where those before it end. */
  lemma {:induction false} ConcatIs(parts: seq<string>, i: nat)
    requires i < |parts|
    ensures |Concat(parts)| == Length(parts)
    ensures Length(parts[..i]) + |parts[i]| <= Length(parts)
    ensures Concat(parts)[Length(parts[..i])..Length(parts[..i]) + |parts[i]|] == parts[i]
    decreases |parts|
  {
    var init := parts[..|parts| - 1];
    if i < |parts| - 1 {
      ConcatIs(init, i);
      assert init[..i] == parts[..i];
    } else if init != [] {
      ConcatIs(init, 0);
    }
  }

  /** The first value of every header that has one. */
  function FirstValues(h: map<string, seq<string>>): map<string, string> {
    map k | k in h && h[k] != [] :: h[k][0]
  }

  /** The response the middleware records for a handler. */
  function ResponseOf(h: Handler): Response {
    Response(h.status, Concat(h.writes), FirstValues(h.headers))
  }

  function ContentType(headers: map<string, string>): string {
    if "Content-Type" in headers && headers["Content-Type"] != "" then headers["Content-Type"]
    else "application/json; charset=utf-8"
  }

  /** The writer the middleware puts in place of the original one. */
  class ResponseRecorder {
    var body: string
    var sent: string

    constructor ()
      ensures body == "" && sent == ""
    {
      body, sent := "", "";
    }

    method Write(b: string)
      modifies this
      ensures body == old(body) + b && sent == old(sent) + b
    {
      body := body + b;
      sent := sent + b;
    }
  }

  method FlattenHeaders(h: map<string, seq<string>>) returns (out: map<string, string>)
    ensures forall name :: name in out <==> name in h && h[name] != []
    ensures forall name :: name in out ==> out[name] == h[name][0]
    ensures out == FirstValues(h)
  {
    out := map[];
    var rest := h.Keys;
    while rest != {}
      invariant rest <= h.Keys
      invariant forall k :: k in out <==> k in h && k !in rest && h[k] != []
      invariant forall k :: k in out ==> out[k] == h[k][0]
    {
      var k :| k in rest;
      if h[k] != [] { out := out[k := h[k][0]]; }
      rest := rest - {k};
    }
    assert out.Keys == FirstValues(h).Keys;
  }

  /** The handler runs behind the recorder: the client is sent what is recorded. */
  method RunHandler(h: Handler) returns (r: Response, sent: string)
    ensures r == ResponseOf(h) && sent == r.body && Describes(r, h)
  {
    var rec := new ResponseRecorder();
    for i := 0 to |h.writes|
      invariant rec.body == Concat(h.writes[..i]) && rec.sent == rec.body
    {
      rec.Write(h.writes[i]);
      assert h.writes[..i + 1][..i] == h.writes[..i];
    }
    assert h.writes[..|h.writes|] == h.writes;
    var headers := FlattenHeaders(h.headers);
    r, sent := Response(h.status, rec.body, headers), rec.sent;
    ResponseIs(h);
  }

  /** Status, the writes one after the other, and the first value of every header that has one. */
  ghost predicate Describes(r: Response, h: Handler) {
    && r.code == h.status
    && |r.body| == Length(h.writes)
    && (forall i :: 0 <= i < |h.writes| ==> WriteAt(r.body, h.writes, i))
    && (forall name :: name in r.headers <==> name in h.headers && h.headers[name] != [])
    && (forall name :: name in r.headers ==> r.headers[name] == h.headers[name][0])
  }

  ghost predicate WriteAt(body: string, writes: seq<string>, i: nat)
    requires i < |writes|
  {
    var start := Length(writes[..i]);
    start + |writes[i]| <= |body| && body[start..start + |writes[i]|] == writes[i]
  }

  lemma ResponseIs(h: Handler)
    ensures Describes(ResponseOf(h), h)
  {
    if h.writes != [] {
      ConcatIs(h.writes, 0);
    }
    forall i | 0 <= i < |h.writes|
      ensures WriteAt(Concat(h.writes), h.writes, i)
    {
      ConcatIs(h.writes, i);
    }
  }

  /**
   What Begin is to decide on a live record: another hash is a mismatch, unless the record has none; else a
   completed record is replayed as it is, and one in progress is a conflict.
   */
  ghost predicate Verdict(rec: Record, requestHash: string, d: Decision) {
    var mismatch := rec.requestHash != "" && rec.requestHash != requestHash;
    && d != Proceed
    && (d == HashMismatch <==> mismatch)
    && (d.Replay? <==> !mismatch && rec.status == Completed)
    && (d.Replay? ==> d.record == rec)
    && (d == Conflict <==> !mismatch && rec.status == InProgress)
  }

  /** What the client of the middleware gets. */
  datatype Outcome =
    | Rejected(code: int)
    | Replay(response: Response, contentType: string)
    | Executed(response: Response)

  datatype Error = MissingKey | StoreFailed | RecordNotFound

  /**
   How the steps of a request go: the request hasher, SETNX, the GET after it, which runs at server time
   `later`, and the GET and SET of Complete.
   */
  datatype Steps = Steps(hasher: bool, reserve: Reply, look: bool, later: int, fetch: bool, write: Reply)

  ghost predicate Reachable(c: Config, s: State) {
    exists acts :: Runs(c, Init(), acts) && After(c, Init(), acts) == s
  }

  class Service {
    var store: Store
    var now: int
    ghost var model: State
    const config: Config
    const cs: Charset

    /** Between requests nothing is in flight. */
    ghost predicate Valid()
      reads this
    {
      && WellFormed(cs)
      && config.inProgressTTL > 0 && config.completedTTL > 0
      && model.store == store && model.now == now && model.flights == map[]
      && Reachable(config, model)
    }

    constructor (config: Config, cs: Charset)
      requires WellFormed(cs)
      ensures Valid() && store == map[] && this.config == NewConfig(config) && this.cs == cs
    {
      this.config, this.cs := NewConfig(config), cs;
      store, now, model := map[], 0, Init();
      new;
      assert Runs(this.config, Init(), []);
      assert After(this.config, Init(), []) == Init();
    }

    ghost method Take(a: Action)
      requires Reachable(config, model) && Enabled(model, a)
      modifies this`model
      ensures model == Apply(config, old(model), a) && Reachable(config, model)
    {
      var acts :| Runs(config, Init(), acts) && After(config, Init(), acts) == model;
      Snoc(config, 0, Init(), acts, a);
      model := Apply(config, model, a);
    }

    /** What the store and the protocol look like while request 0 runs. */
    ghost predicate InFlight(key: string, requestHash: string, began: int)
      reads this
    {
      && WellFormed(cs) && config.inProgressTTL > 0 && config.completedTTL > 0
      && model.store == store && model.now == now && Reachable(config, model)
      && model.flights == map[0 := Running(key, requestHash, began)]
    }

    /** The protocol lets request 0 die. */
    ghost method Drop()
      requires Reachable(config, model) && model.flights.Keys == {0}
      modifies this`model
      ensures Reachable(config, model) && model == old(model).(flights := map[])
    {
      Take(Die(0));
      assert model.flights == map[];
    }

    /**
     Reserve, and BeginHTTP's switch on the record that is already there. A SETNX whose answer is lost leaves a
     reservation that nobody works on; a record may expire before the GET.
     */
    method ReserveKey(key: string, scope: string, requestHash: string, clock: int, k: Steps)
      returns (r: Result<Decision, Error>)
      requires Valid() && k.later >= now
      modifies `store, `now, `model
      ensures r.Failure? || r.value != Proceed ==> Valid()
      ensures k.reserve == Refused ==> r == Failure(StoreFailed) && store == old(store) && now == old(now)
      ensures k.reserve == Lost ==> r == Failure(StoreFailed) && now == old(now)
      ensures k.reserve != Refused && !Live(old(store), key, old(now)) ==>
                && now == old(now)
                && store == old(store)[key := Entry(Record(key, scope, InProgress, requestHash, NO_RESPONSE, clock, 0),
                                                    now + config.inProgressTTL)]
                && (k.reserve == Answered ==> r == Success(Proceed) && InFlight(key, requestHash, now))
      ensures Live(old(store), key, old(now)) ==> store == old(store)
      ensures k.reserve == Answered && Live(old(store), key, old(now)) ==>
                && now == k.later
                && (r == Failure(StoreFailed) <==> !k.look)
                && (r == Failure(RecordNotFound) <==> k.look && !Live(store, key, now))
                && (r.Success? <==> k.look && Live(store, key, now))
                && (r.Success? ==> Verdict(store[key].record, requestHash, r.value))
    {
      if k.reserve == Refused { return Failure(StoreFailed); }
      Take(Reserve(0, key, scope, requestHash, clock));
      var free := !Live(store, key, now);
      if free {
        store := store[key := Entry(Reservation(key, scope, requestHash, clock), now + config.inProgressTTL)];
      }
      if k.reserve == Lost {
        Drop();
        return Failure(StoreFailed);
      }
      if free { return Success(Proceed); }
      Take(Tick(k.later));
      now := k.later;
      if !k.look {
        Drop();
        return Failure(StoreFailed);
      }
      Take(Look(0));
      assert model.flights == map[];
      if !Live(store, key, now) { return Failure(RecordNotFound); }
      return Success(Decide(store[key].record, requestHash));
    }

    /** BeginHTTP: a blank key is an error; otherwise the record of the normalized key decides. */
    method Begin(scope: string, rawKey: string, requestHash: string, clock: int, k: Steps)
      returns (r: Result<Decision, Error>)
      requires Valid() && k.later >= now
      modifies `store, `now, `model
      ensures r == Failure(MissingKey) <==> TrimSpace(cs, rawKey) == ""
      ensures r.Failure? || r.value != Proceed ==> Valid()
      ensures TrimSpace(cs, rawKey) == "" || k.reserve == Refused ==> store == old(store) && now == old(now)
      ensures TrimSpace(cs, rawKey) != "" && k.reserve != Answered ==> r == Failure(StoreFailed)
      ensures k.reserve == Lost ==> now == old(now)
      ensures TrimSpace(cs, rawKey) != "" && k.reserve != Refused ==>
                var key := BuildKey(cs, scope, rawKey);
                if Live(old(store), key, old(now)) then
                  && store == old(store)
                  && (k.reserve == Answered ==>
                        && now == k.later
                        && (r == Failure(StoreFailed) <==> !k.look)
                        && (r == Failure(RecordNotFound) <==> k.look && !Live(store, key, now))
                        && (r.Success? <==> k.look && Live(store, key, now))
                        && (r.Success? ==> Verdict(store[key].record, requestHash, r.value)))
                else
                  && now == old(now) && Reserved(old(store), key, requestHash)
                  && (k.reserve == Answered ==> r == Success(Proceed) && InFlight(key, requestHash, now))
    {
      if TrimSpace(cs, rawKey) == "" { return Failure(MissingKey); }
      BeginAndCompleteMeet(cs, scope, rawKey);
      var normal := NormalizeScope(cs, scope);
      r := ReserveKey(BuildKey(cs, normal, rawKey), normal, requestHash, clock, k);
    }

    /** The key is reserved from now on for InProgressTTL under the hash, and no other record changed. */
    ghost predicate Reserved(before: Store, key: string, requestHash: string)
      reads this
    {
      && key in store && store == before[key := store[key]] && store[key].expiresAt == now + config.inProgressTTL
      && store[key].record.status == InProgress && store[key].record.requestHash == requestHash
    }

    /**
     Complete on the response of the running request: it writes over the live record it finds, and does nothing
     once the record has expired or Redis fails it.
     */
    method Complete(key: string, response: Response, clock: int, k: Steps, ghost requestHash: string, ghost began: int)
      returns (err: Option<Error>)
      requires InFlight(key, requestHash, began)
      modifies `store, `model
      ensures Valid()
      ensures store == if k.fetch && k.write != Refused && Live(old(store), key, now)
                       then old(store)[key := Entry(old(store)[key].record.(status := Completed, completedAt := clock,
                                                                            response := response),
                                                    now + config.completedTTL)]
                       else old(store)
      ensures err.Some? <==> !k.fetch || (Live(old(store), key, now) && k.write != Answered)
    {
      if !k.fetch {
        Drop();
        return Some(StoreFailed);
      }
      Take(Finish(0, response));
      Take(Fetch(0));
      if !Live(store, key, now) {
        assert model.flights == map[];
        return None;
      }
      var record := store[key].record;
      if k.write == Refused {
        Drop();
        return Some(StoreFailed);
      }
      store := store[key := Entry(Completion(record, response, clock), now + config.completedTTL)];
      Take(Write(0, clock));
      assert model.flights == map[];
      return if k.write == Lost then Some(StoreFailed) else None;
    }

    /**
     What the client gets when a live record stands in the way: 409 exactly for another hash or a request still
     in progress, else the recorded response, under its content type or the default one.
     */
    ghost predicate Repeats(rec: Record, requestHash: string, out: Outcome) {
      if (rec.requestHash != "" && rec.requestHash != requestHash) || rec.status == InProgress then out == Rejected(409)
      else
        && out.Replay? && out.response == rec.response
        && out.contentType == if "Content-Type" in rec.response.headers && rec.response.headers["Content-Type"] != ""
                              then rec.response.headers["Content-Type"]
                              else "application/json; charset=utf-8"
    }

    /** GinMiddleware around a handler that lasts until the server clock reads `end`. */
    method Serve(scope: string, rawKey: string, requestHash: string, clock: int, h: Handler, end: int, k: Steps)
      returns (out: Outcome)
      requires Valid() && end >= now && k.later >= now
      modifies `store, `now, `model
      ensures Valid()
      ensures rawKey == "" || !k.hasher ==> out == Rejected(400) && store == old(store)
      ensures rawKey != "" && k.hasher && (TrimSpace(cs, rawKey) == "" || k.reserve == Refused) ==>
                out == Rejected(500) && store == old(store)
      ensures rawKey != "" && k.hasher && TrimSpace(cs, rawKey) != "" && k.reserve != Refused ==>
                var key := BuildKey(cs, scope, rawKey);
                if Live(old(store), key, old(now)) then
                  && store == old(store)
                  && if k.reserve == Lost || !k.look || !Live(store, key, k.later) then out == Rejected(500)
                     else Repeats(store[key].record, requestHash, out)
                else if k.reserve == Lost then out == Rejected(500) && Reserved(old(store), key, requestHash)
                else out == Executed(ResponseOf(h)) && Executes(old(store), old(now), key, requestHash, h, end, k)
    {
      if rawKey == "" { return Rejected(400); }
      if !k.hasher { return Rejected(400); }
      var d := Begin(scope, rawKey, requestHash, clock, k);
      if d.Failure? { return Rejected(500); }
      match d.value {
        case Proceed =>
          var response := Execute(BuildKey(cs, scope, rawKey), requestHash, clock, h, end, k);
          return Executed(response);
        case Replay(rec) =>
          return Outcome.Replay(rec.response, ContentType(rec.response.headers));
        case _ =>
          return Rejected(409);
      }
    }

    /** Steps 7 to 9 of the middleware: the handler runs until `end`, and its response is recorded. */
    method Execute(key: string, ghost requestHash: string, clock: int, h: Handler, end: int, k: Steps)
      returns (response: Response)
      requires InFlight(key, requestHash, now) && end >= now
      requires Reserved(store, key, requestHash)
      modifies `store, `now, `model
      ensures Valid() && response == ResponseOf(h)
      ensures Executes(old(store), old(now), key, requestHash, h, end, k)
    {
      ghost var began := now;
      Take(Tick(end));
      now := end;
      var sent;
      response, sent := RunHandler(h);
      var err := Complete(key, response, clock, k, requestHash, began);
    }

    /** Time passes. */
    method Wait(to: int)
      requires Valid() && to >= now
      modifies `now, `model
      ensures Valid() && now == to && store == old(store)
    {
      Take(Tick(to));
      now := to;
    }

    /**
     A repeat is answered from the record. A first request finds its key free, ends in time and has its commands
     carried out; a second one under the same key comes before CompletedTTL is over. With the same hash, or
     when the first had none, it gets the first one's status, body and headers; with another, 409.
     */
    method ServeTwice(scope: string, rawKey: string, hash: string, clock: int, h: Handler, end: int, k: Steps,
                      again: int, hash2: string, clock2: int, h2: Handler, end2: int, k2: Steps)
      returns (first: Outcome, second: Outcome)
      requires Valid() && TrimSpace(cs, rawKey) != "" && !Live(store, BuildKey(cs, scope, rawKey), now)
      requires now <= end < now + config.inProgressTTL && k.later >= now
      requires k.hasher && k.reserve == Answered && k.fetch && k.write != Refused
      requires end <= again <= k2.later < end + config.completedTTL && end2 >= again
      requires k2.hasher && k2.reserve == Answered && k2.look
      modifies `store, `now, `model
      ensures Valid()
      ensures first.Executed? && Describes(first.response, h)
      ensures if hash == "" || hash2 == hash
              then second.Replay? && second.response == first.response
              else second == Rejected(409)
    {
      assert TrimSpace(cs, "") == "";
      ResponseIs(h);
      first := Serve(scope, rawKey, hash, clock, h, end, k);
      Wait(again);
      second := Serve(scope, rawKey, hash2, clock2, h2, end2, k2);
    }

    /**
     The store after an execution: other records are kept, and the key's record holds the response for
     CompletedTTL if and only if the handler ended in time and Redis carried out GET and SET.
     */
    ghost predicate Executes(before: Store, began: int, key: string, requestHash: string, h: Handler, end: int,
                             k: Steps)
      reads this
    {
      && now == end && key in store && store == before[key := store[key]]
      && store[key].record.requestHash == requestHash
      && (store[key].record.status == Completed <==>
          end < began + config.inProgressTTL && k.fetch && k.write != Refused)
      && (if store[key].record.status == Completed
          then store[key].record.response == ResponseOf(h) && store[key].expiresAt == end + config.completedTTL
          else store[key].expiresAt == began + config.inProgressTTL)
    }
  }
}
