/**
 Register and TryProcessEvent, call by call, over the tables of the event pipeline. Register hands a
 callback to the transaction manager; that it is all or nothing is a theorem about transactions.
 */
module Registration {
  import opened Wrappers
  import opened OutboxEnvelope
  import opened Pipeline
  import T = Transactions

  datatype Error =
    | PolicyViolation
    | QueryFailed
    | EmailAlreadyExists
    | HashFailed
    | InTransaction(cause: T.Error)
    | MissingConsumerName
    | MissingEventId
    | MarkFailed

  /** What the INSERT into users answers; another registration may have taken the address meanwhile. */
  datatype Insertion = Inserted | Duplicate | Rejected

  /** How the steps of Register go. */
  datatype Steps = Steps(
    query: bool, hash: bool, user: Insertion, credential: bool, token: bool, marshal: bool, record: bool,
    answers: T.Answers)

  predicate AllWell(k: Steps) {
    && k.query && k.hash && k.user == Inserted && k.credential && k.token && k.marshal && k.record
    && k.answers.begin && k.answers.commit
  }

  const DUPLICATE := T.App(1)
  const NO_TOKEN := T.App(2)
  const NO_MARSHAL := T.App(3)

  datatype Tables = Tables(users: map<nat, string>, credentials: map<nat, string>, outbox: map<int, Row>, next: int)

  function AddUser(userId: nat, email: string): Tables -> Tables {
    (t: Tables) => t.(users := t.users[userId := email])
  }

  function AddCredential(userId: nat, password: string): Tables -> Tables {
    (t: Tables) => t.(credentials := t.credentials[userId := password])
  }

  function AddRow(row: Row): Tables -> Tables {
    (t: Tables) => t.(outbox := t.outbox[t.next := row], next := t.next + 1)
  }

  function Statement(ok: bool, update: Tables -> Tables): T.Program<Tables> {
    if ok then T.Write(update) else T.Reject
  }

  /** users.Insert: a unique violation becomes a domain error; the transaction is aborted all the same. */
  function InsertUserStep(how: Insertion, userId: nat, email: string): T.Program<Tables> {
    match how
    case Inserted => T.Write(AddUser(userId, email))
    case Duplicate => T.Seq(T.Catch(T.Reject), T.Raise(DUPLICATE))
    case Rejected => T.Reject
  }

  /** The two steps between the credential and the end of the callback: the token, then Record. */
  function AnnounceStep(k: Steps, row: Row): T.Program<Tables> {
    T.Seq(if k.token then T.Skip else T.Raise(NO_TOKEN),
          if k.marshal then Statement(k.record, AddRow(row)) else T.Raise(NO_MARSHAL))
  }

  /** The callback Register passes to WithinTransaction. */
  function Callback(k: Steps, userId: nat, email: string, password: string, row: Row): T.Program<Tables> {
    T.Seq(InsertUserStep(k.user, userId, email),
          T.Seq(Statement(k.credential, AddCredential(userId, password)), AnnounceStep(k, row)))
  }

  lemma AnnounceTrace(k: Steps, row: Row)
    ensures var t := T.TraceOf(AnnounceStep(k, row), false);
            if k.token && k.marshal && k.record then t == T.Trace([AddRow(row)], None, false) else t.err.Some?
  {
    if k.token && k.marshal && k.record {
      assert [] + [AddRow(row)] == [AddRow(row)];
    }
  }

  /** The callback goes through when all its steps do, and then makes three writes. */
  lemma CallbackTrace(k: Steps, userId: nat, email: string, password: string, row: Row)
    ensures var t := T.TraceOf(Callback(k, userId, email, password, row), false);
            if k.user == Inserted && k.credential && k.token && k.marshal && k.record
            then t == T.Trace([AddUser(userId, email), AddCredential(userId, password), AddRow(row)], None, false)
            else t.err.Some? && (k.user == Duplicate ==> t.err == Some(DUPLICATE))
  {
    AnnounceTrace(k, row);
    var first := InsertUserStep(k.user, userId, email);
    var second := Statement(k.credential, AddCredential(userId, password));
    if k.user == Inserted {
      assert T.TraceOf(first, false) == T.Trace([AddUser(userId, email)], None, false);
    } else {
      assert T.TraceOf(first, false).err == Some(if k.user == Duplicate then DUPLICATE else T.Sql);
    }
    if k.credential {
      assert T.TraceOf(second, false) == T.Trace([AddCredential(userId, password)], None, false);
    }
  }

  lemma ThreeWrites(t: Tables, userId: nat, email: string, password: string, row: Row)
    ensures T.ApplyAll(t, [AddUser(userId, email), AddCredential(userId, password), AddRow(row)])
            == Tables(t.users[userId := email], t.credentials[userId := password], t.outbox[t.next := row], t.next + 1)
  {
    var a, b, c := AddUser(userId, email), AddCredential(userId, password), AddRow(row);
    assert [a, b, c][..2] == [a, b] && [a, b][..1] == [a] && [a][..0] == [];
    assert T.ApplyAll(t, [a]) == a(t);
    assert T.ApplyAll(t, [a, b]) == b(a(t));
  }

  /** The transaction of Register on the tables: three writes or none. */
  method Transact(t: Tables, k: Steps, userId: nat, email: string, password: string, row: Row)
    returns (err: Option<T.Error>, t': Tables)
    requires k.query && k.hash
    ensures err.None? <==> AllWell(k)
    ensures k.answers.begin && k.answers.rollback && k.user == Duplicate ==> err == Some(DUPLICATE)
    ensures t' == if err.Some? then t
                  else Tables(t.users[userId := email], t.credentials[userId := password],
                              t.outbox[t.next := row], t.next + 1)
  {
    var body := Callback(k, userId, email, password, row);
    var db := new T.Database<Tables>(t);
    err := db.WithinTransaction(Some(body), true, k.answers);
    t' := db.data;
    CallbackTrace(k, userId, email, password, row);
    T.OutermostIsAtomic(body, k.answers, t);
    ThreeWrites(t, userId, email, password, row);
  }

  /** A registration request, with what the context and the clock add to its event. */
  datatype Command = Command(
    email: string, password: string, payload: string, requestId: string, idempotencyKey: string, occurredAt: int)

  /** The event PublishUserRegistered records. */
  function EventOf(c: Command, userId: nat): Params {
    Params("notification.commands.v1", EventKey("user", Decimal(userId)), "user", Some(Decimal(userId)), REGISTERED,
           c.occurredAt, c.requestId, c.requestId, c.requestId, "", None, 1, c.idempotencyKey, c.payload)
  }

  /** The row announces the registration: what its columns and its envelope hold. */
  ghost predicate Announces(row: Row, c: Command, userId: nat, eventId: string, createdAt: int) {
    && row.topic == "notification.commands.v1" && row.eventType == "user.registered"
    && row.aggregateType == "user" && row.aggregateId == Some(Decimal(userId))
    && row.eventKey == "user:" + Decimal(userId)
    && row.state == Pending && row.createdAt == createdAt
    && row.payload == Envelope(eventId, row.eventType, row.aggregateType, row.aggregateId, c.occurredAt, 0,
                               c.requestId, c.requestId, c.requestId, "", None, 1, c.idempotencyKey, c.payload)
  }

  lemma RowAnnounces(c: Command, userId: nat, eventId: string, createdAt: int)
    ensures Announces(RowOf(EventOf(c, userId), eventId, createdAt), c, userId, eventId, createdAt)
  {
    assert EventKey("user", Decimal(userId)) == "user:" + Decimal(userId);
  }

  /** The row Record inserts for the registration, when it is not refused. */
  method RegistrationRow(c: Command, userId: nat, eventId: string, createdAt: int) returns (row: Row)
    ensures Announces(row, c, userId, eventId, createdAt) && IsRegistration(row, userId)
  {
    var r := OutboxEnvelope.Record(EventOf(c, userId), eventId, createdAt, true, true);
    row := r.value;
    RowAnnounces(c, userId, eventId, createdAt);
  }

  /** Publishing the row sends the registration to its topic, under the user's key and the id minted at Record. */
  method PublishRegistration(row: Row, c: Command, userId: nat, eventId: string, createdAt: int, uuid: string, now: int)
    returns (m: Message)
    requires Announces(row, c, userId, eventId, createdAt)
    ensures m.topic == "notification.commands.v1" && m.key == "user:" + Decimal(userId)
    ensures m.value.eventId == eventId && m.value.eventType == "user.registered"
    ensures m.value.payload == c.payload && m.value.idempotencyKey == c.idempotencyKey
    ensures m.value.traceId == c.requestId && m.value.correlationId == c.requestId
    ensures m.value.causationId == c.requestId && m.value.producedAt == now
  {
    m := OutboxEnvelope.Publish(row.topic, row.payload, uuid, now);
  }

  ghost predicate Taken(users: map<nat, string>, email: string) {
    exists u :: u in users && users[u] == email
  }

  class Platform {
    var users: map<nat, string>
    var credentials: map<nat, string>
    var outbox: map<int, Row>
    var next: int
    var processed: set<Mark>
    ghost var model: State

    ghost predicate Valid()
      reads this
    {
      && model.users == users && model.credentials == credentials && model.drafts == map[]
      && model.outbox.rows == outbox && model.outbox.next == next
      && model.processed == processed
      && Reachable(model)
    }

    constructor ()
      ensures Valid() && users == map[] && outbox == map[] && processed == {}
    {
      users, credentials, outbox, next, processed, model := map[], map[], map[], 0, {}, Init();
      new;
      assert Runs(Init(), []);
      assert After(Init(), []) == Init();
    }

    ghost method Take(a: Action)
      requires Reachable(model) && Enabled(model, a)
      modifies this`model
      ensures model == Apply(old(model), a) && Reachable(model)
    {
      ReachableStep(model, a);
      model := Apply(model, a);
    }

    method ExistsByEmail(email: string) returns (b: bool)
      ensures b <==> Taken(users, email)
    {
      var rest := users.Keys;
      while rest != {}
        invariant rest <= users.Keys
        invariant forall u :: u in users && u !in rest ==> users[u] != email
      {
        var u :| u in rest;
        if users[u] == email { return true; }
        rest := rest - {u};
      }
      return false;
    }

    /** The protocol takes the steps of a registering transaction that go well, then commits or rolls back. */
    ghost method Follow(k: Steps, userId: nat, email: string, password: string, row: Row)
      requires Valid() && userId !in users && !Taken(users, email)
      requires IsRegistration(row, userId) && row.state == Pending && row.payload.eventId !in model.minted
      modifies this`model
      ensures Reachable(model) && model.drafts == map[] && model.processed == processed
      ensures if AllWell(k)
              then && model.users == users[userId := email] && model.credentials == credentials[userId := password]
                   && model.outbox.rows == outbox[next := row] && model.outbox.next == next + 1
              else Valid()
    {
      if !k.answers.begin || k.user != Inserted { return; }
      Take(InsertUser(0, userId, email));
      if k.credential {
        Take(InsertCredential(0, password));
        if k.token && k.marshal && k.record {
          Take(Action.Record(0, row));
        }
      }
      assert row.(state := Pending) == row;
      if AllWell(k) {
        Take(Commit(0));
      } else {
        Take(Rollback(0));
      }
      assert model.drafts == map[];
    }

    /**
     Register. Success, exactly when every step goes well, adds one user, one credential and one
     pending user.registered row with the fresh event id; any error leaves the tables as they were.
     */
    method Register(c: Command, policyOk: bool, userId: nat, eventId: string, createdAt: int, k: Steps)
      returns (r: Result<nat, Error>)
      requires Valid() && userId !in users && eventId !in model.minted
      modifies this
      ensures Valid() && processed == old(processed)
      ensures r.Failure? ==> users == old(users) && credentials == old(credentials) && outbox == old(outbox)
      ensures r.Success? ==>
                && r.value == userId
                && users == old(users)[userId := c.email]
                && credentials == old(credentials)[userId := c.password]
                && old(next) !in old(outbox)
                && old(next) in outbox && outbox == old(outbox)[old(next) := outbox[old(next)]]
                && Announces(outbox[old(next)], c, userId, eventId, createdAt)
      ensures r.Success? <==> policyOk && !Taken(old(users), c.email) && AllWell(k)
      ensures policyOk && k.query && Taken(old(users), c.email) ==> r == Failure(EmailAlreadyExists)
      ensures policyOk && k.query && k.hash && k.answers.begin && k.answers.rollback && k.user == Duplicate ==>
                r == Failure(EmailAlreadyExists)
    {
      if !policyOk { return Failure(PolicyViolation); }
      if !k.query { return Failure(QueryFailed); }
      var taken := ExistsByEmail(c.email);
      if taken { return Failure(EmailAlreadyExists); }
      if !k.hash { return Failure(HashFailed); }
      var row := RegistrationRow(c, userId, eventId, createdAt);
      FreeNext();
      Follow(k, userId, c.email, c.password, row);
      var err, t := Transact(Tables(users, credentials, outbox, next), k, userId, c.email, c.password, row);
      users, credentials, outbox, next := t.users, t.credentials, t.outbox, t.next;
      if err.Some? { return Failure(if err.value == DUPLICATE then EmailAlreadyExists else InTransaction(err.value)); }
      return Success(userId);
    }

    lemma FreeNext()
      requires Valid()
      ensures next !in outbox
    {
      ReachableInv(model);
      NextIsFree(model.outbox);
    }

    /**
     TryProcessEvent: true exactly for the answered call that inserts the row; white-space names are errors. An
     INSERT whose answer is lost marks the event and is reported as an error: nobody wins it then.
     */
    method TryProcessEvent(consumer: string, eventId: string, blank: string -> bool, insert: Reply)
      returns (r: Result<bool, Error>)
      requires Valid()
      modifies `processed, `model
      ensures Valid()
      ensures r.Failure? <==> blank(consumer) || blank(eventId) || insert != Answered
      ensures blank(consumer) || blank(eventId) || insert == Refused ==>
                processed == old(processed) && model == old(model)
      ensures !blank(consumer) && !blank(eventId) && insert == Lost ==>
                processed == old(processed) + {Mark(consumer, eventId)} && model.wins == old(model.wins)
      ensures r.Success? ==> processed == old(processed) + {Mark(consumer, eventId)}
      ensures r.Success? ==> (r.value <==> Mark(consumer, eventId) !in old(processed))
      ensures r.Success? ==>
                model.wins == if r.value then old(model.wins) + [Mark(consumer, eventId)] else old(model.wins)
    {
      if blank(consumer) { return Failure(MissingConsumerName); }
      if blank(eventId) { return Failure(MissingEventId); }
      if insert == Refused { return Failure(MarkFailed); }
      var mark := Mark(consumer, eventId);
      Take(TryMark(mark, insert == Answered));
      var won := mark !in processed;
      processed := processed + {mark};
      if insert == Lost { return Failure(MarkFailed); }
      return Success(won);
    }
  }
}
