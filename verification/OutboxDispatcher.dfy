/**
 The outbox repository and the dispatcher loop of one worker, and how repeated dispatching drains
 the table. `model` is the protocol state the calls lead to.
 */
module OutboxDispatcher {
  import opened Wrappers
  import IntSets
  import opened OutboxEnvelope
  import opened OutboxMachine
  import opened OutboxTheorems

  /** What `ORDER BY created_at LIMIT n` over the pending rows may select. */
  ghost predicate IsClaim(rows: map<int, Row>, limit: nat, batch: seq<int>) {
    && NoDuplicates(batch)
    && (forall id :: id in batch ==> id in InState(rows, Pending))
    && |batch| == (if limit < |InState(rows, Pending)| then limit else |InState(rows, Pending)|)
    && (forall x, y :: x in batch && y in InState(rows, Pending) && y !in batch ==>
                         rows[x].createdAt <= rows[y].createdAt)
  }

  lemma {:induction false} DistinctCount(ids: seq<int>)
    requires NoDuplicates(ids)
    ensures |set id | id in ids| == |ids|
  {
    if ids != [] {
      var init, last := ids[..|ids| - 1], ids[|ids| - 1];
      DistinctCount(init);
      assert last !in init;
      assert (set id | id in ids) == (set id | id in init) + {last};
    }
  }

  /** What becomes of each row: the answer of Publish, copies beyond the one that nil vouches for, the mark. */
  datatype World = World(ok: int -> bool, extra: int -> nat, mark: int -> Reply)

  /** The ids that were published and are known to be marked. */
  ghost function Confirmed(ids: seq<int>, w: World): set<int> {
    set id | id in ids && w.ok(id) && w.mark(id) == Answered
  }

  lemma ConfirmedSnoc(ids: seq<int>, id: int, w: World)
    requires id !in ids
    ensures |Confirmed(ids + [id], w)| == |Confirmed(ids, w)| + if w.ok(id) && w.mark(id) == Answered then 1 else 0
  {
    var all, most := Confirmed(ids + [id], w), Confirmed(ids, w);
    if w.ok(id) && w.mark(id) == Answered {
      assert all == most + {id};
    } else {
      assert all == most;
    }
  }

  function HandOffOf(id: int, w: World): HandOff {
    HandOff(id, w.ok(id), w.extra(id) + if w.ok(id) then 1 else 0)
  }

  /** The hand-offs of a batch, in order. */
  function HandOffs(ids: seq<int>, w: World): seq<HandOff> {
    if ids == [] then [] else HandOffs(ids[..|ids| - 1], w) + [HandOffOf(ids[|ids| - 1], w)]
  }

  /** The row of a dispatched id: marked with the outcome, or left publishing when the mark was refused. */
  function Dispatched(row: Row, ok: bool, mark: Reply): Row {
    row.(state := if mark == Refused then Publishing else if ok then Published else Failed)
  }

  function DispatchRows(rows: map<int, Row>, ids: seq<int>, w: World): map<int, Row> {
    if ids == [] then rows
    else
      var rows', id := DispatchRows(rows, ids[..|ids| - 1], w), ids[|ids| - 1];
      if id in rows' then rows'[id := Dispatched(rows'[id], w.ok(id), w.mark(id))] else rows'
  }

  /** Row by row: each id of the batch is dispatched once, the others stay. */
  lemma {:induction false} DispatchRowsAt(rows: map<int, Row>, ids: seq<int>, w: World)
    ensures DispatchRows(rows, ids, w).Keys == rows.Keys
    ensures forall id :: id in rows && id in ids ==>
                           DispatchRows(rows, ids, w)[id] == Dispatched(rows[id], w.ok(id), w.mark(id))
    ensures forall id :: id in rows && id !in ids ==> DispatchRows(rows, ids, w)[id] == rows[id]
  {
    if ids != [] {
      DispatchRowsAt(rows, ids[..|ids| - 1], w);
    }
  }

  class Dispatcher {
    var rows: map<int, Row>
    var next: int
    var handed: seq<HandOff>
    ghost var model: State

    ghost predicate Valid()
      reads this
    {
      Tied() && model.workers == map[]
    }

    /** The tables are those of a state the protocol can reach. */
    ghost predicate Tied()
      reads this
    {
      model.rows == rows && model.next == next && model.handed == handed && Reachable(model)
    }

    constructor ()
      ensures Valid() && rows == map[] && handed == []
    {
      rows, next, handed, model := map[], 0, [], Init();
      new;
      assert Runs(Init(), []);
      assert After(Init(), []) == Init();
    }

    ghost method Take(a: Action)
      requires Reachable(model) && Enabled(model, a)
      modifies this`model
      ensures model == Apply(old(model), a) && Reachable(model)
    {
      ReachableStep(model, a);
      model := Apply(model, a);
    }

    method Insert(row: Row) returns (id: int)
      requires Valid() && row.state == Pending
      modifies this
      ensures Valid() && id !in old(rows) && rows == old(rows)[id := row] && handed == old(handed)
    {
      ReachableInv(model);
      id := next;
      rows, next := rows[next := row], next + 1;
      Take(OutboxMachine.Action.Insert(row));
    }

    /** The oldest of a non-empty set of rows. */
    method Oldest(ids: set<int>) returns (x: int)
      requires ids != {} && ids <= rows.Keys
      ensures x in ids && forall y :: y in ids ==> rows[x].createdAt <= rows[y].createdAt
    {
      IntSets.NonEmpty(ids);
      x :| x in ids;
      var rest := ids - {x};
      while rest != {}
        invariant rest <= ids && x in ids
        invariant forall y :: y in ids && y !in rest ==> rows[x].createdAt <= rows[y].createdAt
      {
        IntSets.NonEmpty(rest);
        var y: int :| y in rest;
        if rows[y].createdAt < rows[x].createdAt { x := y; }
        rest := rest - {y};
      }
    }

    /** The inner SELECT of ClaimPending. */
    method SelectPending(limit: nat) returns (batch: seq<int>)
      ensures IsClaim(rows, limit, batch)
    {
      var pending := set id | id in rows && rows[id].state == Pending;
      var rest := pending;
      batch := [];
      while |batch| < limit && rest != {}
        invariant NoDuplicates(batch) && rest <= pending && |batch| <= limit
        invariant forall id :: id in pending <==> id in rest || id in batch
        invariant forall id :: id in batch ==> id !in rest
        invariant |batch| + |rest| == |pending|
        invariant forall x, y :: x in batch && y in rest ==> rows[x].createdAt <= rows[y].createdAt
      {
        var x := Oldest(rest);
        batch := batch + [x];
        rest := rest - {x};
      }
      assert pending == InState(rows, Pending);
    }

    /**
     ClaimPending. A negative limit or a refused statement changes nothing. A statement whose answer is
     lost has claimed its rows all the same, and nobody holds them.
     */
    method ClaimPending(limit: int, how: Reply) returns (r: Option<seq<int>>, ghost batch: seq<int>)
      requires Valid()
      modifies `rows, `model
      ensures Tied()
      ensures r.Some? <==> limit >= 0 && how == Answered
      ensures r.Some? ==> r.value == batch && model.workers == map[0 := Worker(batch, None)]
      ensures r.None? ==> Valid()
      ensures limit >= 0 && how != Refused ==> IsClaim(old(rows), limit, batch) && rows == ClaimRows(old(rows), batch)
      ensures rows.Keys == old(rows).Keys
      ensures forall id :: id in rows && id in batch ==> rows[id] == old(rows)[id].(state := Publishing)
      ensures forall id :: id in rows && id !in batch ==> rows[id] == old(rows)[id]
      ensures limit < 0 || how == Refused ==> batch == [] && rows == old(rows)
    {
      if limit < 0 || how == Refused { return None, []; }
      var ids := SelectPending(limit);
      forall i | 0 <= i < |ids|
        ensures ids[i] in rows && rows[ids[i]].state == Pending
      {
        assert ids[i] in ids;
      }
      Take(Claim(0, ids));
      rows := ClaimRows(rows, ids);
      if how == Lost {
        Take(Stop(0));
        assert model.workers == map[];
        return None, ids;
      }
      return Some(ids), ids;
    }

    /** Publish and mark one claimed row. */
    method DispatchRow(id: int, w: World, ghost rest: seq<int>)
      requires Tied() && model.workers == map[0 := Worker([id] + rest, None)]
      modifies `rows, `handed, `model
      ensures Tied() && model.workers == map[0 := Worker(rest, None)]
      ensures id in old(rows) && old(rows)[id].state == Publishing
      ensures rows == old(rows)[id := Dispatched(old(rows)[id], w.ok(id), w.mark(id))]
      ensures handed == old(handed) + [HandOffOf(id, w)]
    {
      ReachableInv(model);
      assert model.workers[0].batch[0] == id;
      var h := HandOffOf(id, w);
      Take(OutboxMachine.Action.Publish(0, h.ok, h.copies));
      handed := handed + [h];
      assert ([id] + rest)[1..] == rest;
      Take(Mark(0, w.mark(id) != Refused));
      if w.mark(id) != Refused { rows := MarkRow(rows, id, h.ok); }
    }

    /** DispatchOnce: claim up to `limit` rows, publish and mark each, count those published and known to be marked. */
    method DispatchOnce(limit: int, how: Reply, w: World) returns (r: Option<nat>, ghost batch: seq<int>)
      requires Valid()
      modifies `rows, `handed, `model
      ensures Valid() && rows.Keys == old(rows).Keys
      ensures r.Some? <==> limit >= 0 && how == Answered
      ensures limit < 0 || how == Refused ==> rows == old(rows)
      ensures r.None? ==> handed == old(handed)
      ensures limit >= 0 && how != Refused ==>
                && IsClaim(old(rows), limit, batch)
                && (forall id :: id in rows && id in batch ==>
                                   rows[id] == Dispatched(old(rows)[id], w.ok(id),
                                                          if r.Some? then w.mark(id) else Refused))
                && (forall id :: id in rows && id !in batch ==> rows[id] == old(rows)[id])
      ensures r.Some? ==> handed == old(handed) + HandOffs(batch, w)
      ensures r.Some? ==> r.value == |set id | id in batch && w.ok(id) && w.mark(id) == Answered|
    {
      var claim;
      claim, batch := ClaimPending(limit, how);
      if claim.None? { return None, batch; }
      var published := DispatchAll(claim.value, w);
      Take(Stop(0));
      assert model.workers == map[];
      DispatchRowsAt(ClaimRows(old(rows), batch), batch, w);
      return Some(published), claim.value;
    }

    /** The loop of DispatchOnce over the claimed events. */
    method DispatchAll(events: seq<int>, w: World) returns (published: nat)
      requires Tied() && model.workers == map[0 := Worker(events, None)] && NoDuplicates(events)
      modifies `rows, `handed, `model
      ensures Tied() && model.workers == map[0 := Worker([], None)]
      ensures rows == DispatchRows(old(rows), events, w)
      ensures handed == old(handed) + HandOffs(events, w)
      ensures published == |Confirmed(events, w)|
    {
      published := 0;
      assert events[0..] == events;
      for i := 0 to |events|
        invariant Tied() && model.workers == map[0 := Worker(events[i..], None)]
        invariant rows == DispatchRows(old(rows), events[..i], w)
        invariant handed == old(handed) + HandOffs(events[..i], w)
        invariant published == |Confirmed(events[..i], w)|
      {
        var id := events[i];
        assert events[i..] == [id] + events[i + 1..];
        DispatchRow(id, w, events[i + 1..]);
        assert events[..i + 1][..i] == events[..i];
        assert events[..i + 1] == events[..i] + [id] && id !in events[..i];
        ConfirmedSnoc(events[..i], id, w);
        if w.ok(id) && w.mark(id) == Answered { published := published + 1; }
      }
      assert events[..|events|] == events && events[|events|..] == [];
    }
  }

  // ----- draining

  /** One round of one worker: a claim in created_at order takes its batch out of the pending rows. */
  ghost predicate Round(rows: map<int, Row>, limit: nat, batch: seq<int>, rows': map<int, Row>) {
    && IsClaim(rows, limit, batch)
    && rows'.Keys == rows.Keys
    && (forall id :: id in rows ==> rows'[id] == rows[id].(state := rows'[id].state))
    && InState(rows', Pending) == InState(rows, Pending) - (set id | id in batch)
  }

  lemma RoundCount(rows: map<int, Row>, limit: nat, batch: seq<int>, rows': map<int, Row>)
    requires Round(rows, limit, batch, rows')
    ensures var n := |InState(rows, Pending)|; |InState(rows', Pending)| == if n < limit then 0 else n - limit
  {
    DistinctCount(batch);
    var taken := set id | id in batch;
    var pending := InState(rows, Pending);
    assert forall id :: id in taken ==> id in batch;
    assert taken <= pending;
    var rest := pending - taken;
    assert rest == InState(rows', Pending) && |rest| == |pending| - |taken|;
  }

  /** What k rounds leave of n. */
  function Left(n: nat, k: nat, limit: nat): nat {
    if k == 0 then n
    else if Left(n, k - 1, limit) < limit then 0
    else Left(n, k - 1, limit) - limit
  }

  lemma {:induction false} LeftIs(n: nat, k: nat, limit: nat)
    ensures Left(n, k, limit) == if n < k * limit then 0 else n - k * limit
  {
    if k > 0 {
      LeftIs(n, k - 1, limit);
      assert k * limit == (k - 1) * limit + limit;
    }
  }

  lemma {:induction false} RoundsLeave(tables: seq<map<int, Row>>, batches: seq<seq<int>>, limit: nat, k: nat)
    requires |tables| == |batches| + 1 && k <= |batches|
    requires forall i :: 0 <= i < |batches| ==> Round(tables[i], limit, batches[i], tables[i + 1])
    ensures |InState(tables[k], Pending)| == Left(|InState(tables[0], Pending)|, k, limit)
    decreases k
  {
    if k > 0 {
      RoundsLeave(tables, batches, limit, k - 1);
      assert Round(tables[k - 1], limit, batches[k - 1], tables[k - 1 + 1]);
      RoundCount(tables[k - 1], limit, batches[k - 1], tables[k]);
    }
  }

  /** After k rounds without inserts exactly max(0, n - k * limit) of n pending rows remain. */
  lemma Drains(tables: seq<map<int, Row>>, batches: seq<seq<int>>, limit: nat)
    requires |tables| == |batches| + 1
    requires forall i :: 0 <= i < |batches| ==> Round(tables[i], limit, batches[i], tables[i + 1])
    ensures var n := |InState(tables[0], Pending)|;
            |InState(tables[|batches|], Pending)| == if n < |batches| * limit then 0 else n - |batches| * limit
  {
    RoundsLeave(tables, batches, limit, |batches|);
    LeftIs(|InState(tables[0], Pending)|, |batches|, limit);
  }

  /** A row pending after some rounds was pending, with the same creation time, before them. */
  lemma {:induction false} PendingEarlier(tables: seq<map<int, Row>>, batches: seq<seq<int>>, limit: nat,
                                          i: nat, j: nat, y: int)
    requires |tables| == |batches| + 1 && i <= j <= |batches|
    requires forall k :: 0 <= k < |batches| ==> Round(tables[k], limit, batches[k], tables[k + 1])
    requires y in InState(tables[j], Pending)
    ensures y in InState(tables[i], Pending) && tables[i][y].createdAt == tables[j][y].createdAt
    decreases j
  {
    if i < j {
      assert Round(tables[j - 1], limit, batches[j - 1], tables[j]);
      PendingEarlier(tables, batches, limit, i, j - 1, y);
    }
  }

  /** Rows of an earlier round are not younger than rows of a later one. */
  lemma OldestFirst(tables: seq<map<int, Row>>, batches: seq<seq<int>>, limit: nat, i: nat, j: nat, x: int, y: int)
    requires |tables| == |batches| + 1 && i < j < |batches|
    requires forall k :: 0 <= k < |batches| ==> Round(tables[k], limit, batches[k], tables[k + 1])
    requires x in batches[i] && y in batches[j]
    ensures x in tables[i] && y in tables[i] && tables[i][x].createdAt <= tables[i][y].createdAt
  {
    assert Round(tables[i], limit, batches[i], tables[i + 1]);
    assert Round(tables[j], limit, batches[j], tables[j + 1]);
    PendingEarlier(tables, batches, limit, i + 1, j, y);
    PendingEarlier(tables, batches, limit, i, i + 1, y);
    assert y !in batches[i];
  }

  /** A call of DispatchOnce that claims is such a round, whatever Publish and the marks answer or lose. */
  lemma DispatchIsRound(rows: map<int, Row>, limit: nat, batch: seq<int>, rows': map<int, Row>,
                        ok: int -> bool, mark: int -> Reply)
    requires IsClaim(rows, limit, batch) && rows'.Keys == rows.Keys
    requires forall id :: id in rows' && id in batch ==> rows'[id] == Dispatched(rows[id], ok(id), mark(id))
    requires forall id :: id in rows' && id !in batch ==> rows'[id] == rows[id]
    ensures Round(rows, limit, batch, rows')
  {
    var taken := set id | id in batch;
    forall id
      ensures id in InState(rows', Pending) <==> id in InState(rows, Pending) - taken
    {
      if id in rows' && id in batch {
        assert rows'[id] == Dispatched(rows[id], ok(id), mark(id));
      }
    }
    assert InState(rows', Pending) == InState(rows, Pending) - taken;
  }
}
