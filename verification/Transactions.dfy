/**
 WithinTransaction and the executor choice, as the meaning of programs that write, fail, swallow
 errors and nest transactions.
 */
module Transactions {
  import opened Wrappers

  datatype Error =
    | App(code: int)
    | Sql
    | Aborted
    | BeginFailed
    | CommitFailed
    | RollbackFailed
    | NilCallback
    | NilPool
    | Panic

  /** What BeginTx, Commit and Rollback would answer. */
  datatype Answers = Answers(begin: bool, commit: bool, rollback: bool)

  /**
   Programs over a database of type `D`. `Write` is a statement that takes effect, `Reject` one the
   database refuses: it aborts the transaction it is in, as PostgreSQL does. `Catch` swallows an
   error but not a panic. `Tx` is WithinTransaction around a callback.
   */
  datatype Program<!D> =
    | Skip
    | Write(update: D -> D)
    | Reject
    | Raise(error: Error)
    | Seq(first: Program<D>, second: Program<D>)
    | Catch(body: Program<D>)
    | Tx(body: Program<D>, answers: Answers)

  /** A pgx.Tx: the data as the transaction sees it, and whether a statement of it was refused. */
  datatype Session<D> = Session(view: D, aborted: bool)

  datatype Outcome<D> = Outcome(err: Option<Error>, data: D, tx: Option<Session<D>>)

  /** A statement goes to the transaction in the context if there is one, else to the pool. */
  function Statement<D>(p: Program<D>, data: D, tx: Option<Session<D>>): Outcome<D>
    requires p.Write? || p.Reject?
  {
    match tx
    case None =>
      if p.Write? then Outcome(None, p.update(data), None) else Outcome(Some(Sql), data, None)
    case Some(t) =>
      if t.aborted then Outcome(Some(Aborted), data, tx)
      else if p.Write? then Outcome(None, data, Some(t.(view := p.update(t.view))))
      else Outcome(Some(Sql), data, Some(t.(aborted := true)))
  }

  /** How an outermost WithinTransaction ends, given how its callback ended. */
  function Finish<D>(data: D, body: Outcome<D>, answers: Answers): Outcome<D> {
    if body.err.Some? then
      Outcome(if body.err != Some(Panic) && !answers.rollback then Some(RollbackFailed) else body.err, data, None)
    else if body.tx.None? || body.tx.value.aborted || !answers.commit then Outcome(Some(CommitFailed), data, None)
    else Outcome(None, body.tx.value.view, None)
  }

  function Exec<D>(p: Program<D>, data: D, tx: Option<Session<D>>): Outcome<D>
    decreases p
  {
    match p
    case Skip => Outcome(None, data, tx)
    case Write(_) => Statement(p, data, tx)
    case Reject => Statement(p, data, tx)
    case Raise(e) => Outcome(Some(e), data, tx)
    case Seq(a, b) =>
      var o := Exec(a, data, tx);
      if o.err.Some? then o else Exec(b, o.data, o.tx)
    case Catch(body) =>
      var o := Exec(body, data, tx);
      if o.err == Some(Panic) then o else o.(err := None)
    case Tx(body, answers) =>
      if tx.Some? then Exec(body, data, tx)
      else if !answers.begin then Outcome(Some(BeginFailed), data, None)
      else Finish(data, Exec(body, data, Some(Session(data, false))), answers)
  }

  /** The interpreter over a mutable database and the transaction of the context. */
  class Database<D> {
    var data: D
    var tx: Option<Session<D>>

    constructor (data: D)
      ensures this.data == data && tx == None
    {
      this.data, tx := data, None;
    }

    method Run(p: Program<D>) returns (err: Option<Error>)
      modifies this
      ensures Outcome(err, data, tx) == Exec(p, old(data), old(tx))
      decreases p, 1
    {
      match p {
        case Skip => err := None;
        case Write(update) =>
          if tx.None? {
            data, err := update(data), None;
          } else if tx.value.aborted {
            err := Some(Aborted);
          } else {
            tx, err := Some(tx.value.(view := update(tx.value.view))), None;
          }
        case Reject =>
          if tx.None? {
            err := Some(Sql);
          } else if tx.value.aborted {
            err := Some(Aborted);
          } else {
            tx, err := Some(tx.value.(aborted := true)), Some(Sql);
          }
        case Raise(e) => err := Some(e);
        case Seq(a, b) =>
          err := Run(a);
          if err.None? { err := Run(b); }
        case Catch(body) =>
          err := Run(body);
          if err != Some(Panic) { err := None; }
        case Tx(body, answers) =>
          err := WithinTransaction(Some(body), true, answers);
      }
    }

    /** WithinTransaction; a nil callback or a manager without a pool is refused before anything happens. */
    method WithinTransaction(body: Option<Program<D>>, pool: bool, answers: Answers) returns (err: Option<Error>)
      modifies this
      ensures body.None? ==> err == Some(NilCallback) && data == old(data) && tx == old(tx)
      ensures body.Some? && !pool ==> err == Some(NilPool) && data == old(data) && tx == old(tx)
      ensures body.Some? && pool ==> Outcome(err, data, tx) == Exec(Tx(body.value, answers), old(data), old(tx))
      decreases if body.Some? then body.value else Skip, 2
    {
      if body.None? { return Some(NilCallback); }
      if !pool { return Some(NilPool); }
      if tx.Some? {
        err := Run(body.value);
        return;
      }
      if !answers.begin { return Some(BeginFailed); }
      tx := Some(Session(data, false));
      err := Run(body.value);
      if err.Some? {
        tx := None;
        if err != Some(Panic) && !answers.rollback { err := Some(RollbackFailed); }
      } else if tx.None? || tx.value.aborted || !answers.commit {
        tx, err := None, Some(CommitFailed);
      } else {
        data, tx := tx.value.view, None;
      }
      InTransaction(body.value, old(data), Session(old(data), false));
    }
  }

  // ----- what a program does inside a transaction, without mention of the data

  /** The writes a program performs, in order, the error it returns, and whether it leaves the transaction aborted. */
  datatype Trace<!D> = Trace(writes: seq<D -> D>, err: Option<Error>, aborted: bool)

  function TraceOf<D>(p: Program<D>, aborted: bool): Trace<D>
    decreases p
  {
    match p
    case Skip => Trace([], None, aborted)
    case Write(update) => if aborted then Trace([], Some(Aborted), true) else Trace([update], None, false)
    case Reject => Trace([], Some(if aborted then Aborted else Sql), true)
    case Raise(e) => Trace([], Some(e), aborted)
    case Seq(a, b) =>
      var t := TraceOf(a, aborted);
      if t.err.Some? then t
      else
        var u := TraceOf(b, t.aborted);
        u.(writes := t.writes + u.writes)
    case Catch(body) =>
      var t := TraceOf(body, aborted);
      if t.err == Some(Panic) then t else t.(err := None)
    case Tx(body, _) => TraceOf(body, aborted)
  }

  function ApplyAll<D>(data: D, writes: seq<D -> D>): D {
    if writes == [] then data
    else writes[|writes| - 1](ApplyAll(data, writes[..|writes| - 1]))
  }

  lemma {:induction false} ApplyAllConcat<D>(data: D, a: seq<D -> D>, b: seq<D -> D>)
    ensures ApplyAll(data, a + b) == ApplyAll(ApplyAll(data, a), b)
    decreases |b|
  {
    if b == [] {
      assert a + b == a;
    } else {
      ApplyAllConcat(data, a, b[..|b| - 1]);
      assert (a + b)[..|a + b| - 1] == a + b[..|b| - 1];
    }
  }

  /** Inside a transaction only the session moves, by the program's writes in order. */
  lemma {:induction false} InTransaction<D>(p: Program<D>, data: D, t: Session<D>)
    ensures var tr := TraceOf(p, t.aborted);
            Exec(p, data, Some(t)) == Outcome(tr.err, data, Some(Session(ApplyAll(t.view, tr.writes), tr.aborted)))
    decreases p
  {
    match p
    case Skip =>
    case Write(update) =>
      assert ApplyAll(t.view, [update]) == update(t.view) by {
        assert [update][..0] == [];
      }
    case Reject =>
    case Raise(e) =>
    case Seq(a, b) =>
      InTransaction(a, data, t);
      var ta := TraceOf(a, t.aborted);
      if ta.err.None? {
        InTransaction(b, data, Session(ApplyAll(t.view, ta.writes), ta.aborted));
        ApplyAllConcat(t.view, ta.writes, TraceOf(b, ta.aborted).writes);
      }
    case Catch(body) => InTransaction(body, data, t);
    case Tx(body, _) => InTransaction(body, data, t);
  }

  /**
   The transaction goes through: it begins, its callback returns nil, no statement was refused, the
   commit is accepted.
   */
  ghost predicate Commits<D>(p: Program<D>, answers: Answers) {
    answers.begin && answers.commit && TraceOf(p, false).err.None? && !TraceOf(p, false).aborted
  }

  /**
   All or nothing. An outermost transaction returns nil exactly when it commits; then the
   database has all writes made inside, in order, those of swallowed inner failures included.
   Otherwise the database is unchanged, and the error is the callback's own, if there is one and the
   rollback is answered. Either way no transaction is left open.
   */
  lemma OutermostIsAtomic<D>(p: Program<D>, answers: Answers, data: D)
    ensures var o := Exec(Tx(p, answers), data, None);
            && o.tx == None
            && (o.err.None? <==> Commits(p, answers))
            && o.data == (if o.err.None? then ApplyAll(data, TraceOf(p, false).writes) else data)
            && var t := TraceOf(p, false);
               && (!answers.begin ==> o.err == Some(BeginFailed))
               && (answers.begin && t.err.Some? ==>
                     o.err == if answers.rollback || t.err == Some(Panic) then t.err else Some(RollbackFailed))
               && (answers.begin && t.err.None? && (t.aborted || !answers.commit) ==> o.err == Some(CommitFailed))
  {
    if answers.begin {
      InTransaction(p, data, Session(data, false));
    }
  }

  // ----- nesting is flattened

  /** The program without its inner transactions. */
  function Strip<D>(p: Program<D>): Program<D> {
    match p
    case Seq(a, b) => Seq(Strip(a), Strip(b))
    case Catch(body) => Catch(Strip(body))
    case Tx(body, _) => Strip(body)
    case _ => p
  }

  lemma {:induction false} StripTrace<D>(p: Program<D>, aborted: bool)
    ensures TraceOf(Strip(p), aborted) == TraceOf(p, aborted)
    decreases p
  {
    match p
    case Seq(a, b) =>
      StripTrace(a, aborted);
      StripTrace(b, TraceOf(a, aborted).aborted);
    case Catch(body) => StripTrace(body, aborted);
    case Tx(body, _) => StripTrace(body, aborted);
    case _ =>
  }

  /**
   An outer transaction means the same without the transactions nested in it, at any depth and
   inside caught errors.
   */
  lemma NestingIsFlattened<D>(p: Program<D>, answers: Answers, data: D)
    ensures Exec(Tx(p, answers), data, None) == Exec(Tx(Strip(p), answers), data, None)
  {
    var t := Session(data, false);
    InTransaction(p, data, t);
    InTransaction(Strip(p), data, t);
    StripTrace(p, false);
  }

  /** In particular Tx(Tx(p)) is Tx(p), whatever the inner begin, commit and rollback would have answered. */
  lemma DoubleIsSingle<D>(p: Program<D>, outer: Answers, inner: Answers, data: D)
    ensures Exec(Tx(Tx(p, inner), outer), data, None) == Exec(Tx(p, outer), data, None)
  {
    InTransaction(Tx(p, inner), data, Session(data, false));
    InTransaction(p, data, Session(data, false));
  }

  /** Once a statement was refused, swallowing its error does not save the transaction: nothing in it commits. */
  lemma {:induction false} AbortedStays<D>(p: Program<D>)
    ensures TraceOf(p, true).aborted && TraceOf(p, true).writes == []
    decreases p
  {
    match p
    case Seq(a, b) =>
      AbortedStays(a);
      AbortedStays(b);
    case Catch(body) => AbortedStays(body);
    case Tx(body, _) => AbortedStays(body);
    case _ =>
  }

  lemma RefusedStatementLosesAll<D>(p: Program<D>, q: Program<D>, answers: Answers, data: D)
    requires TraceOf(p, false).aborted
    ensures Exec(Tx(Seq(Catch(p), q), answers), data, None).err.Some?
    ensures Exec(Tx(Seq(Catch(p), q), answers), data, None).data == data
  {
    AbortedStays(q);
    OutermostIsAtomic(Seq(Catch(p), q), answers, data);
  }
}
