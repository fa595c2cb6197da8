/**
 The address service, one call at a time. `model` is the state of the concurrent protocol that the calls
 lead to; what holds of every run of the protocol holds of it.
 */
module AddressService {
  import opened Wrappers
  import IntSets
  import opened Addresses
  import opened AddressTheorems

  datatype Error = AddressNotFound | AddressNotOwned | DatabaseError

  /** How the statements of a call go: the lookup, then the transaction's own. */
  datatype Steps = Steps(read: bool, begin: bool, unset: bool, write: bool, commit: bool)

  /** UnsetDefaultByUserID, run when a default is to be installed. */
  function WithoutDefault(rows: Table, userId: int, isDefault: bool): Table {
    map id | id in rows :: if isDefault && rows[id].userId == userId then rows[id].(isDefault := false) else rows[id]
  }

  /** The table after the transaction of a request that wrote row `id`. */
  function Saved(rows: Table, userId: int, id: int, r: Request): Table {
    WithoutDefault(rows, userId, r.isDefault)[id := Row(userId, r.content, r.isDefault)]
  }

  /** The statements up to and with the INSERT or UPDATE succeed. */
  predicate Reaches(k: Steps, isDefault: bool) {
    k.begin && (isDefault ==> k.unset)
  }

  /**
   What a request means to the user: the row is as asked for, a default is the user's only one, no other
   row loses anything but the default, and other users' rows stay.
   */
  ghost predicate Installed(rows: Table, rows': Table, userId: int, id: int, r: Request) {
    && rows'.Keys == rows.Keys + {id} && rows'[id] == Row(userId, r.content, r.isDefault)
    && Defaults(rows', userId) == (if r.isDefault then {id} else Defaults(rows, userId) - {id})
    && (forall x :: x in rows && x != id ==> rows'[x].content == rows[x].content)
    && (forall u :: u != userId ==> RowsOf(rows', u) == RowsOf(rows, u))
  }

  lemma SavedInstalls(rows: Table, userId: int, id: int, r: Request)
    requires id in rows ==> rows[id].userId == userId
    ensures Installed(rows, Saved(rows, userId, id, r), userId, id, r)
  {
    var rows' := Saved(rows, userId, id, r);
    forall u | u != userId
      ensures RowsOf(rows', u) == RowsOf(rows, u)
    {
      assert forall x :: x in RowsOf(rows', u) <==> x in RowsOf(rows, u);
    }
    assert forall x :: x in Defaults(rows', userId) <==>
                       if r.isDefault then x == id else x in Defaults(rows, userId) && x != id;
  }

  class Service {
    var rows: Table
    var next: int
    ghost var model: State

    ghost predicate Valid()
      reads this
    {
      model.rows == rows && model.txs == map[] && (forall id :: id in model.owners ==> id < next) && Reachable(model)
    }

    constructor ()
      ensures Valid() && rows == map[]
    {
      rows, next, model := map[], 0, Init();
      new;
      assert Runs(Init(), []);
      assert After(Init(), []) == Init();
    }

    ghost method Take(a: Action)
      requires Reachable(model) && Enabled(model, a)
      modifies this`model
      ensures model == Apply(old(model), a) && Reachable(model)
    {
      ReachableStep(model, a);
      model := Apply(model, a);
    }

    lemma Facts()
      requires Valid()
      ensures forall id :: id in rows ==> id < next
    {
      ReachableInv(model);
    }

    /** Only transaction `pid` is open, in this state. */
    ghost predicate Alone(pid: int, t: Txn)
      reads this
    {
      model.txs == map[pid := t] && model.rows == rows && Reachable(model)
    }

    /** What UnsetDefaultByUserID has written when `todo` is left. */
    ghost function ClearedRows(userId: int, todo: set<int>): Table
      reads this
    {
      map id | id in rows && rows[id].userId == userId && id !in todo :: rows[id].(isDefault := false)
    }

    /** The protocol unsets the user's rows one by one. */
    ghost method UnsetAll(pid: int, userId: int, r: Request)
      requires Alone(pid, Txn(userId, r, Begun, map[])) && r.isDefault
      modifies this`model
      ensures Alone(pid, Txn(userId, r, Clearing({}), ClearedRows(userId, {}))) && model.owners == old(model.owners)
    {
      Take(Snapshot(pid));
      var todo := IdsOf(rows, userId);
      assert ClearedRows(userId, todo) == map[];
      while todo != {}
        invariant todo <= IdsOf(rows, userId) && model.owners == old(model.owners)
        invariant Alone(pid, Txn(userId, r, Clearing(todo), ClearedRows(userId, todo)))
      {
        IntSets.NonEmpty(todo);
        var id: int :| id in todo;
        UnsetOne(pid, userId, r, todo, id);
        todo := todo - {id};
      }
    }

    ghost method UnsetOne(pid: int, userId: int, r: Request, todo: set<int>, id: int)
      requires Alone(pid, Txn(userId, r, Clearing(todo), ClearedRows(userId, todo)))
      requires todo <= IdsOf(rows, userId) && id in todo
      modifies this`model
      ensures Alone(pid, Txn(userId, r, Clearing(todo - {id}), ClearedRows(userId, todo - {id})))
      ensures model.owners == old(model.owners)
    {
      assert !LockedByOther(model.txs, pid, id);
      Take(Action.Unset(pid, id));
      assert ClearedRows(userId, todo)[id := rows[id].(isDefault := false)] == ClearedRows(userId, todo - {id});
    }

    /** The protocol opens a transaction and goes up to its INSERT or UPDATE. */
    ghost method Open(userId: int, r: Request) returns (pid: int)
      requires Valid() && (r.Change? ==> r.id in rows && rows[r.id].userId == userId)
      modifies this`model
      ensures model.owners == old(model.owners) && pid !in old(model).ended
      ensures Alone(pid, Txn(userId, r, if r.isDefault then Clearing({}) else Begun,
                             if r.isDefault then ClearedRows(userId, {}) else map[]))
    {
      pid := IntSets.Unused(model.ended.Keys);
      Take(Begin(pid, userId, r));
      if r.isDefault { UnsetAll(pid, userId, r); }
    }

    /** The protocol writes the row of the request. */
    ghost method WriteRow(pid: int, t: Txn, id: int)
      requires Alone(pid, t) && AtWrite(t)
      requires if t.request.Change? then id == t.request.id && id in rows else id !in model.owners
      requires t.request.isDefault ==> IdsOf(rows, t.userId) <= t.writes.Keys
      modifies this`model
      ensures Alone(pid, Written(t, id)) && model.owners.Keys == old(model.owners).Keys + {id}
    {
      assert Target(model, pid, id) && !Contended(model.txs, pid);
      if t.request.isDefault {
        forall x
          ensures !Bars(rows, t, id, x)
        {
          assert x in rows && rows[x].userId == t.userId ==> x in IdsOf(rows, t.userId);
        }
      }
      Take(Write(pid, id));
    }

    ghost method CommitRow(pid: int, t: Txn)
      requires Alone(pid, t) && t.stage == Wrote
      modifies this`model
      ensures Reachable(model) && model.txs == map[] && model.rows == rows + t.writes
      ensures model.owners == old(model.owners)
    {
      Take(Commit(pid));
      assert model.txs == map[];
    }

    /** The protocol runs the transaction of a request that goes well. */
    ghost method Save(userId: int, id: int, r: Request)
      requires Valid() && (if r.Change? then id == r.id && id in rows && rows[id].userId == userId else id == next)
      modifies this`model
      ensures Reachable(model) && model.txs == map[] && model.rows == Saved(rows, userId, id, r)
      ensures model.owners.Keys == old(model.owners).Keys + {id}
    {
      var pid := Open(userId, r);
      var t := model.txs[pid];
      WriteRow(pid, t, id);
      CommitRow(pid, Written(t, id));
      MergeIsSaved(userId, id, r);
    }

    /** What the transaction has written, over the committed rows, is the table after the request. */
    lemma MergeIsSaved(userId: int, id: int, r: Request)
      ensures rows + (if r.isDefault then ClearedRows(userId, {}) else map[])[id := Row(userId, r.content, r.isDefault)]
              == Saved(rows, userId, id, r)
    {}

    /** AddAddress: the row is added and, as the default, takes over from the user's others; or nothing happens. */
    method AddAddress(userId: int, content: string, isDefault: bool, k: Steps) returns (r: Result<int, Error>)
      requires Valid()
      modifies this
      ensures Valid()
      ensures r.Success? <==> Reaches(k, isDefault) && k.write && k.commit
      ensures r.Failure? ==> r.error == DatabaseError && rows == old(rows)
      ensures r.Success? ==> r.value !in old(rows)
      ensures r.Success? ==> Installed(old(rows), rows, userId, r.value, Add(content, isDefault))
    {
      Facts();
      if !k.begin { return Failure(DatabaseError); }
      var view := rows;
      if isDefault {
        if !k.unset { return Failure(DatabaseError); }
        view := WithoutDefault(view, userId, true);
      }
      if !k.write { return Failure(DatabaseError); }
      var id := next;
      view := view[id := Row(userId, content, isDefault)];
      if !k.commit { return Failure(DatabaseError); }
      Save(userId, id, Add(content, isDefault));
      SavedInstalls(rows, userId, id, Add(content, isDefault));
      assert WithoutDefault(rows, userId, false) == rows;
      rows, next := view, next + 1;
      return Success(id);
    }

    /**
     UpdateAddress. `gone` tells that another request deletes the row between the lookup and the
     transaction. A refused UPDATE, one that violates the index included, is reported as a missing row.
     */
    method UpdateAddress(userId: int, id: int, content: string, isDefault: bool, gone: bool, k: Steps)
      returns (r: Result<(), Error>)
      requires Valid()
      modifies this
      ensures Valid() && next == old(next)
      ensures !k.read ==> r == Failure(DatabaseError) && rows == old(rows)
      ensures k.read && id !in old(rows) ==> r == Failure(AddressNotFound) && rows == old(rows)
      ensures k.read && id in old(rows) && old(rows)[id].userId != userId ==>
                r == Failure(AddressNotOwned) && rows == old(rows)
      ensures k.read && id in old(rows) && old(rows)[id].userId == userId ==>
                && (r.Success? <==> Reaches(k, isDefault) && !gone && k.write && k.commit)
                && (r == Failure(AddressNotFound) <==> Reaches(k, isDefault) && (gone || !k.write))
                && (r.Success? ==> Installed(old(rows), rows, userId, id, Change(id, content, isDefault)))
                && (r.Failure? ==> rows == if gone then old(rows) - {id} else old(rows))
    {
      Facts();
      if !k.read { return Failure(DatabaseError); }
      if id !in rows { return Failure(AddressNotFound); }
      if rows[id].userId != userId { return Failure(AddressNotOwned); }
      if gone {
        rows := rows - {id};
        Take(Delete(userId, id));
      }
      if !k.begin { return Failure(DatabaseError); }
      var view := rows;
      if isDefault {
        if !k.unset { return Failure(DatabaseError); }
        view := WithoutDefault(view, userId, true);
      }
      if !k.write || id !in view { return Failure(AddressNotFound); }
      view := view[id := Row(userId, content, isDefault)];
      if !k.commit { return Failure(DatabaseError); }
      Save(userId, id, Change(id, content, isDefault));
      SavedInstalls(rows, userId, id, Change(id, content, isDefault));
      assert WithoutDefault(rows, userId, false) == rows;
      rows := view;
      return Success(());
    }

    /**
     DeleteAddress: the owner's row only. A DELETE that is refused, and one that is carried out with its answer
     lost, are reported as a missing row.
     */
    method DeleteAddress(userId: int, id: int, read: bool, delete: Reply) returns (r: Result<(), Error>)
      requires Valid()
      modifies this
      ensures Valid()
      ensures r == Failure(DatabaseError) <==> !read
      ensures r == Failure(AddressNotOwned) <==> read && id in old(rows) && old(rows)[id].userId != userId
      ensures r.Success? <==> read && delete == Answered && id in old(rows) && old(rows)[id].userId == userId
      ensures rows == if read && delete != Refused && id in old(rows) && old(rows)[id].userId == userId
                      then old(rows) - {id}
                      else old(rows)
    {
      if !read { return Failure(DatabaseError); }
      if id !in rows { return Failure(AddressNotFound); }
      if rows[id].userId != userId { return Failure(AddressNotOwned); }
      if delete == Refused { return Failure(AddressNotFound); }
      rows := rows - {id};
      Take(Delete(userId, id));
      if delete == Lost { return Failure(AddressNotFound); }
      return Success(());
    }
  }
}
