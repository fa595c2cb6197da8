/**
 The fixed-window limiter on one Redis counter. INCR and EXPIRE are separate commands: the EXPIRE of
 the first hit of a window may come late or never. Both limiters of the code base are here.
 */
module RateLimit {
  import opened Wrappers

  type Positive = n: int | n >= 1 witness 1

  datatype Counter = Counter(count: Positive, expiresAt: Option<int>)

  /** A request that was counted: when, in which life of the counter, as which hit of it. */
  datatype Hit = Hit(at: int, life: int, count: Positive)

  /** `starts[l]` is when life `l` of the counter began; `pending` tells that its EXPIRE has not run yet. */
  datatype State = State(now: int, counter: Option<Counter>, starts: seq<int>, pending: bool, log: seq<Hit>)

  datatype Action = Tick(to: int) | Incr | Expire(window: int) | LoseExpire

  function Init(now: int): State { State(now, None, [], false, []) }

  /** The key exists at the server's time. */
  predicate Live(c: Option<Counter>, now: int) {
    c.Some? && (c.value.expiresAt.None? || now < c.value.expiresAt.value)
  }

  /** INCR on the key: a missing or expired key starts from nothing and without an expiry. */
  function Incremented(c: Option<Counter>, now: int): Counter {
    if Live(c, now) then c.value.(count := c.value.count + 1) else Counter(1, None)
  }

  /** Callers may differ in the window they set; `window` is the shortest. */
  predicate Enabled(s: State, a: Action, window: int) {
    match a
    case Tick(to) => to >= s.now
    case Incr => true
    case Expire(w) => s.pending && w >= window
    case LoseExpire => s.pending
  }

  function Apply(s: State, a: Action): State {
    match a
    case Tick(to) => s.(now := to)
    case Incr =>
      var c := Incremented(s.counter, s.now);
      var starts := if Live(s.counter, s.now) then s.starts else s.starts + [s.now];
      s.(counter := Some(c), starts := starts,
      pending := if c.count == 1 then true else s.pending,
      log := s.log + [Hit(s.now, |starts| - 1, c.count)])
    case Expire(w) =>
      if Live(s.counter, s.now)
      then s.(pending := false, counter := Some(s.counter.value.(expiresAt := Some(s.now + w))))
      else s.(pending := false)
    case LoseExpire => s.(pending := false)
  }

  // ----- what every reachable state satisfies

  /** Lives of the counter start at least a window apart. */
  ghost predicate LivesInv(s: State, w: int) {
    && (s.counter.Some? <==> s.starts != [])
    && (forall i :: 0 <= i < |s.starts| - 1 ==> s.starts[i] + w <= s.starts[i + 1])
    && (s.starts != [] ==> s.starts[|s.starts| - 1] <= s.now)
    && (s.pending ==> s.counter.Some? && s.counter.value.expiresAt.None?)
    && (s.counter.Some? && s.counter.value.expiresAt.Some? ==>
          s.starts[|s.starts| - 1] + w <= s.counter.value.expiresAt.value)
  }

  /** Hits fall into their lives and are counted up in them. */
  ghost predicate HitsInv(s: State) {
    && (forall i :: 0 <= i < |s.log| ==> HitInv(s, s.log[i]))
    && (forall i, j :: 0 <= i < j < |s.log| && s.log[i].life == s.log[j].life ==> s.log[i].count < s.log[j].count)
  }

  ghost predicate Inv(s: State, w: int) {
    LivesInv(s, w) && HitsInv(s)
  }

  ghost predicate HitInv(s: State, h: Hit) {
    && 0 <= h.life < |s.starts|
    && s.starts[h.life] <= h.at <= s.now
    && (h.count == 1 ==> h.at == s.starts[h.life])
    && (h.life + 1 < |s.starts| ==> h.at < s.starts[h.life + 1])
    && (h.life + 1 == |s.starts| ==>
          && s.counter.Some? && h.count <= s.counter.value.count
          && (s.counter.value.expiresAt.Some? ==> h.at < s.counter.value.expiresAt.value))
  }

  lemma IncrKeepsLives(s: State, w: int)
    requires w > 0 && LivesInv(s, w)
    ensures LivesInv(Apply(s, Incr), w)
  {}

  /** A hit of before stays in its life. */
  lemma IncrKeepsHit(s: State, w: int, h: Hit)
    requires w > 0 && LivesInv(s, w) && HitInv(s, h)
    ensures HitInv(Apply(s, Incr), h)
    ensures h.life == Apply(s, Incr).log[|s.log|].life ==> h.count < Apply(s, Incr).log[|s.log|].count
  {}

  lemma IncrStep(s: State, w: int)
    requires w > 0 && Inv(s, w)
    ensures Inv(Apply(s, Incr), w)
  {
    IncrKeepsLives(s, w);
    var s' := Apply(s, Incr);
    forall i | 0 <= i < |s.log|
      ensures HitInv(s', s.log[i])
      ensures s.log[i].life == s'.log[|s.log|].life ==> s.log[i].count < s'.log[|s.log|].count
    {
      IncrKeepsHit(s, w, s.log[i]);
    }
  }

  lemma OtherStep(s: State, a: Action, w: int)
    requires w > 0 && Inv(s, w) && Enabled(s, a, w) && !a.Incr?
    ensures Inv(Apply(s, a), w)
  {
    var s' := Apply(s, a);
    forall i | 0 <= i < |s'.log|
      ensures HitInv(s', s'.log[i])
    {
      assert HitInv(s, s.log[i]);
    }
  }

  ghost predicate Runs(s: State, acts: seq<Action>, w: int)
    decreases acts
  {
    acts == [] || (Enabled(s, acts[0], w) && Runs(Apply(s, acts[0]), acts[1..], w))
  }

  ghost function After(s: State, acts: seq<Action>, w: int): State
    requires Runs(s, acts, w)
    decreases acts
  {
    if acts == [] then s else After(Apply(s, acts[0]), acts[1..], w)
  }

  ghost predicate Reachable(s: State, w: int) {
    exists now, acts :: Runs(Init(now), acts, w) && After(Init(now), acts, w) == s
  }

  lemma {:induction false} Snoc(s: State, acts: seq<Action>, a: Action, w: int)
    requires Runs(s, acts, w) && Enabled(After(s, acts, w), a, w)
    ensures Runs(s, acts + [a], w) && After(s, acts + [a], w) == Apply(After(s, acts, w), a)
    decreases acts
  {
    if acts == [] {
      assert Runs(Apply(s, a), [], w);
      assert ([a])[1..] == [];
    } else {
      Snoc(Apply(s, acts[0]), acts[1..], a, w);
      assert (acts + [a])[1..] == acts[1..] + [a];
    }
  }

  lemma {:induction false} RunKeepsInv(s: State, acts: seq<Action>, w: int)
    requires w > 0 && Inv(s, w) && Runs(s, acts, w)
    ensures Inv(After(s, acts, w), w)
    decreases acts
  {
    if acts != [] {
      if acts[0].Incr? {
        IncrStep(s, w);
      } else {
        OtherStep(s, acts[0], w);
      }
      RunKeepsInv(Apply(s, acts[0]), acts[1..], w);
    }
  }

  // ----- counting

  /** A set that maps injectively into n numbers has at most n elements. */
  lemma {:induction false} InjectionBound(ids: set<int>, f: map<int, int>, n: nat)
    requires ids <= f.Keys
    requires forall i :: i in ids ==> 0 <= f[i] < n
    requires forall i, j :: i in ids && j in ids && i != j ==> f[i] != f[j]
    ensures |ids| <= n
    decreases n
  {
    if n == 0 {
      assert forall i :: i !in ids;
      assert ids == {};
    } else if exists i :: i in ids && f[i] == n - 1 {
      var i :| i in ids && f[i] == n - 1;
      InjectionBound(ids - {i}, f, n - 1);
    } else {
      InjectionBound(ids, f, n - 1);
    }
  }

  /** Indices of the counted requests that were let through in the half-open span from `a` to `a + w`. */
  ghost function AllowedIn(s: State, limit: int, a: int, w: int): set<int> {
    set i | 0 <= i < |s.log| && a <= s.log[i].at < a + w && s.log[i].count <= limit
  }

  ghost function AllowedInLife(s: State, limit: int, life: nat): set<int> {
    set i | 0 <= i < |s.log| && s.log[i].life == life && s.log[i].count <= limit
  }

  function Max0(n: int): nat { if n < 0 then 0 else n }

  /** One life of the counter lets at most `limit` requests through. */
  lemma PerLife(now: int, acts: seq<Action>, w: int, limit: int, life: nat)
    requires w > 0 && Runs(Init(now), acts, w)
    ensures |AllowedInLife(After(Init(now), acts, w), limit, life)| <= Max0(limit)
  {
    RunKeepsInv(Init(now), acts, w);
    var s := After(Init(now), acts, w);
    var ids := AllowedInLife(s, limit, life);
    var f := map i | i in ids :: s.log[i].count - 1;
    assert forall i :: i in ids ==> HitInv(s, s.log[i]);
    InjectionBound(ids, f, Max0(limit));
  }

  lemma {:induction false} StartsApart(s: State, w: int, i: nat, j: nat)
    requires w > 0 && Inv(s, w) && i < j < |s.starts|
    ensures s.starts[i] + w <= s.starts[j]
    decreases j
  {
    if i + 1 < j {
      StartsApart(s, w, i, j - 1);
    }
  }

  /** Hits two lives apart are more than a window apart. */
  lemma SpanTouchesTwoLives(s: State, w: int, i: nat, j: nat)
    requires w > 0 && Inv(s, w) && i < |s.log| && j < |s.log|
    requires s.log[j].life >= s.log[i].life + 2
    ensures s.log[i].at + w < s.log[j].at
  {
    assert HitInv(s, s.log[i]) && HitInv(s, s.log[j]);
    StartsApart(s, w, s.log[i].life + 1, s.log[j].life);
  }

  /** The most that one window-long span can let through. */
  function SpanLimit(limit: int): nat {
    if limit <= 0 then 0 else 2 * limit - 1
  }

  /**
   For every arrival sequence, and however late or lost the EXPIREs are, fewer than twice the limit
   pass in any half-open span as long as the shortest window.
   */
  lemma LessThanTwiceTheLimit(now: int, acts: seq<Action>, w: int, limit: int, a: int)
    requires w > 0 && Runs(Init(now), acts, w)
    ensures |AllowedIn(After(Init(now), acts, w), limit, a, w)| <= SpanLimit(limit)
  {
    RunKeepsInv(Init(now), acts, w);
    SpanBound(After(Init(now), acts, w), w, limit, a);
  }

  lemma SpanBound(s: State, w: int, limit: int, a: int)
    requires w > 0 && Inv(s, w)
    ensures |AllowedIn(s, limit, a, w)| <= SpanLimit(limit)
  {
    var ids := AllowedIn(s, limit, a, w);
    assert forall i :: i in ids ==> HitInv(s, s.log[i]);
    if ids != {} {
      var first := EarliestLife(s, ids);
      if forall i :: i in ids ==> s.log[i].life == s.log[first].life {
        var f := map i | i in ids :: s.log[i].count - 1;
        InjectionBound(ids, f, limit);
      } else {
        TwoLivesBound(s, w, limit, a, first);
      }
    }
  }

  /** When a span touches two lives, the first hit of the earlier one falls before it. */
  lemma TwoLivesBound(s: State, w: int, limit: int, a: int, first: int)
    requires w > 0 && Inv(s, w)
    requires first in AllowedIn(s, limit, a, w)
    requires forall i :: i in AllowedIn(s, limit, a, w) ==> s.log[first].life <= s.log[i].life
    requires exists i :: i in AllowedIn(s, limit, a, w) && s.log[i].life != s.log[first].life
    ensures |AllowedIn(s, limit, a, w)| <= SpanLimit(limit)
  {
    var ids, l := AllowedIn(s, limit, a, w), s.log[first].life;
    var later :| later in ids && s.log[later].life != l;
    forall i | i in ids
      ensures l <= s.log[i].life <= l + 1 && (s.log[i].life == l ==> s.log[i].count >= 2)
    {
      BesideLaterLife(s, w, first, later, i, a);
    }
    TwoLivesSize(s.log, ids, l, limit);
  }

  /** Hits of one life from its second on, and hits of the next, number fewer than twice the limit. */
  lemma TwoLivesSize(log: seq<Hit>, ids: set<int>, l: int, limit: int)
    requires limit >= 1
    requires forall i :: i in ids ==> 0 <= i < |log| && log[i].count <= limit && l <= log[i].life <= l + 1
    requires forall i :: i in ids && log[i].life == l ==> log[i].count >= 2
    requires forall i, j :: i in ids && j in ids && i < j && log[i].life == log[j].life ==> log[i].count < log[j].count
    ensures |ids| <= 2 * limit - 1
  {
    var f := map i | i in ids :: (if log[i].life == l then 0 else limit) + log[i].count - 2;
    InjectionBound(ids, f, 2 * limit - 1);
  }

  lemma BesideLaterLife(s: State, w: int, first: nat, later: nat, i: nat, a: int)
    requires w > 0 && Inv(s, w) && first < |s.log| && later < |s.log| && i < |s.log|
    requires a <= s.log[first].at < a + w && a <= s.log[later].at < a + w && a <= s.log[i].at < a + w
    requires s.log[first].life < s.log[later].life && s.log[first].life <= s.log[i].life
    ensures s.log[i].life <= s.log[first].life + 1
    ensures s.log[i].life == s.log[first].life ==> s.log[i].count >= 2
  {
    assert HitInv(s, s.log[i]) && HitInv(s, s.log[later]);
    if s.log[i].life >= s.log[first].life + 2 {
      SpanTouchesTwoLives(s, w, first, i);
    }
    StartsApart(s, w, s.log[first].life, s.log[later].life);
  }

  /** A hit in the earliest life that the set touches. */
  lemma EarliestLife(s: State, ids: set<int>) returns (first: int)
    requires ids != {} && forall i :: i in ids ==> 0 <= i < |s.log|
    ensures first in ids && forall i :: i in ids ==> s.log[first].life <= s.log[i].life
    decreases |ids|
  {
    assert (forall x :: x !in ids) ==> ids == {};
    var x :| x in ids;
    if ids == {x} {
      first := x;
    } else {
      assert ids - {x} != {};
      first := EarliestLife(s, ids - {x});
      if s.log[x].life < s.log[first].life { first := x; }
    }
  }

  // ----- the bound is reached

  /** `n` requests in a row, without the clock moving, in a life that has begun. */
  lemma {:induction false} Burst(s: State, n: nat, w: int) returns (acts: seq<Action>)
    requires Live(s.counter, s.now)
    ensures Runs(s, acts, w)
    ensures var s' := After(s, acts, w);
            && s'.now == s.now && s'.starts == s.starts && s'.pending == s.pending
            && s'.counter == Some(Counter(s.counter.value.count + n, s.counter.value.expiresAt))
            && |s'.log| == |s.log| + n && s.log <= s'.log
            && forall i :: |s.log| <= i < |s'.log| ==>
                             s'.log[i] == Hit(s.now, |s.starts| - 1, s.counter.value.count + 1 + (i - |s.log|))
    decreases n
  {
    if n == 0 {
      acts := [];
    } else {
      var s1 := Apply(s, Incr);
      var rest := Burst(s1, n - 1, w);
      acts := Cons(s, Incr, rest, w);
      assert After(s, acts, w).log[|s.log|] == s1.log[|s.log|];
    }
  }

  lemma Cons(s: State, a: Action, rest: seq<Action>, w: int) returns (acts: seq<Action>)
    requires Enabled(s, a, w) && Runs(Apply(s, a), rest, w)
    ensures Runs(s, acts, w) && After(s, acts, w) == After(Apply(s, a), rest, w)
  {
    acts := [a] + rest;
    assert acts[1..] == rest;
  }

  lemma {:induction false} Append(s: State, first: seq<Action>, second: seq<Action>, w: int)
    requires Runs(s, first, w) && Runs(After(s, first, w), second, w)
    ensures Runs(s, first + second, w) && After(s, first + second, w) == After(After(s, first, w), second, w)
    decreases first
  {
    if first == [] {
      assert first + second == second;
    } else {
      Append(Apply(s, first[0]), first[1..], second, w);
      assert (first + second)[1..] == first[1..] + second;
    }
  }

  /** The integers from `lo` to below `hi`. */
  function Range(lo: int, hi: int): (r: set<int>)
    requires lo <= hi
    ensures |r| == hi - lo && forall i :: i in r <==> lo <= i < hi
    decreases hi - lo
  {
    if lo == hi then {} else Range(lo, hi - 1) + {hi - 1}
  }

  /** The end of a first window: one early hit, then all it has left in its last instant. */
  lemma FirstWindow(w: int, limit: nat) returns (acts: seq<Action>)
    requires w >= 2 && limit >= 1
    ensures Runs(Init(0), acts, w)
    ensures var s := After(Init(0), acts, w);
            && s.now == w - 1 && s.counter == Some(Counter(limit, Some(w))) && s.starts == [0] && |s.log| == limit
            && forall k :: 1 <= k < limit ==> s.log[k] == Hit(w - 1, 0, 1 + k)
  {
    var s0 := Init(0);
    var s1 := Apply(s0, Incr);
    var s2 := Apply(s1, Expire(w));
    var s3 := Apply(s2, Tick(w - 1));
    acts := Burst(s3, limit - 1, w);
    acts := Cons(s2, Tick(w - 1), acts, w);
    acts := Cons(s1, Expire(w), acts, w);
    acts := Cons(s0, Incr, acts, w);
  }

  /** For every limit and every window of two or more ticks, some arrival sequence reaches the bound. */
  lemma BoundIsReached(w: int, limit: nat) returns (acts: seq<Action>)
    requires w >= 2 && limit >= 1
    ensures Runs(Init(0), acts, w) && |AllowedIn(After(Init(0), acts, w), limit, w - 1, w)| == SpanLimit(limit)
  {
    var head := FirstWindow(w, limit);
    var s := After(Init(0), head, w);
    var t1 := Apply(s, Tick(w));
    var t2 := Apply(t1, Incr);
    var tail := Burst(t2, limit - 1, w);
    var end := After(t2, tail, w);
    tail := Cons(t1, Incr, tail, w);
    tail := Cons(s, Tick(w), tail, w);
    Append(Init(0), head, tail, w);
    acts := head + tail;
    forall i | 1 <= i < 2 * limit
      ensures w - 1 <= end.log[i].at < w - 1 + w && end.log[i].count <= limit
    {
      if i < limit {
        assert end.log[i] == s.log[i];
      } else if i == limit {
        assert end.log[i] == t2.log[i];
      }
    }
    CountAllowed(end, w, limit);
    LessThanTwiceTheLimit(0, acts, w, limit, w - 1);
  }

  lemma CountAllowed(s: State, w: int, limit: nat)
    requires limit >= 1 && |s.log| == 2 * limit
    requires forall i :: 1 <= i < 2 * limit ==> w - 1 <= s.log[i].at < w - 1 + w && s.log[i].count <= limit
    ensures |AllowedIn(s, limit, w - 1, w)| >= 2 * limit - 1
  {
    var range := Range(1, 2 * limit);
    forall i | i in range
      ensures i in AllowedIn(s, limit, w - 1, w)
    {
      assert s.log[i].count <= limit;
    }
    SubsetSize(range, AllowedIn(s, limit, w - 1, w));
  }

  lemma SubsetSize(a: set<int>, b: set<int>)
    requires a <= b
    ensures |a| <= |b|
  {
    assert b == a + (b - a);
  }

  // ----- a lost EXPIRE

  /** The counter has no expiry and will get none, and it has used up the limit. */
  predicate Stuck(s: State, limit: int) {
    s.counter.Some? && s.counter.value.expiresAt.None? && !s.pending && s.counter.value.count >= limit
  }

  /** The run lets a further request through. */
  ghost predicate Admits(s: State, acts: seq<Action>, w: int, limit: int) {
    && Runs(s, acts, w)
    && exists i :: |s.log| <= i < |After(s, acts, w).log| && After(s, acts, w).log[i].count <= limit
  }

  lemma {:induction false} StuckForever(s: State, acts: seq<Action>, w: int, limit: int)
    requires Stuck(s, limit) && Runs(s, acts, w)
    ensures Stuck(After(s, acts, w), limit) && s.log <= After(s, acts, w).log
    ensures forall i :: |s.log| <= i < |After(s, acts, w).log| ==> After(s, acts, w).log[i].count > limit
    decreases acts
  {
    if acts != [] {
      var s' := Apply(s, acts[0]);
      StuckForever(s', acts[1..], w, limit);
      assert forall i :: 0 <= i < |s'.log| ==> After(s, acts, w).log[i] == s'.log[i];
    }
  }

  lemma HitAdmits(s: State, w: int, limit: int) returns (acts: seq<Action>)
    requires Incremented(s.counter, s.now).count <= limit
    ensures Admits(s, acts, w, limit)
  {
    acts := Cons(s, Incr, [], w);
    assert After(s, acts, w).log[|s.log|].count <= limit;
  }

  lemma AdmitsCons(s: State, a: Action, rest: seq<Action>, w: int, limit: int) returns (acts: seq<Action>)
    requires Enabled(s, a, w) && !a.Incr? && Admits(Apply(s, a), rest, w, limit)
    ensures Admits(s, acts, w, limit)
  {
    acts := Cons(s, a, rest, w);
  }

  /** Once its expiry has passed, a counter starts anew. */
  lemma ExpiryAdmits(s: State, w: int, limit: int) returns (acts: seq<Action>)
    requires limit >= 1 && s.counter.Some? && s.counter.value.expiresAt.Some?
    ensures Admits(s, acts, w, limit)
  {
    var end := s.counter.value.expiresAt.value;
    var a := Tick(if end < s.now then s.now else end);
    acts := HitAdmits(Apply(s, a), w, limit);
    acts := AdmitsCons(s, a, acts, w, limit);
  }

  /**
   From any reachable state some continuation lets a further request through, unless the EXPIRE of the counter was
   lost and the counter has used up the limit: then every later request is refused for good.
   */
  lemma RefusedForGoodExactlyWhen(s: State, w: int, limit: int)
    requires w > 0 && limit >= 1 && Reachable(s, w)
    ensures (exists acts :: Admits(s, acts, w, limit)) <==> !Stuck(s, limit)
  {
    var now, run :| Runs(Init(now), run, w) && After(Init(now), run, w) == s;
    RunKeepsInv(Init(now), run, w);
    if Stuck(s, limit) {
      forall acts | Runs(s, acts, w)
        ensures !Admits(s, acts, w, limit)
      {
        StuckForever(s, acts, w, limit);
      }
    } else if s.counter.Some? && s.counter.value.expiresAt.Some? {
      var acts := ExpiryAdmits(s, w, limit);
    } else if s.counter.Some? && s.pending {
      var acts := ExpiryAdmits(Apply(s, Expire(w)), w, limit);
      acts := AdmitsCons(s, Expire(w), acts, w, limit);
    } else {
      var acts := HitAdmits(s, w, limit);
    }
  }

  /** A lost EXPIRE is enough: some run from a fresh counter gets stuck, whatever the limit and the window. */
  lemma LostExpireSticks(now: int, w: int, limit: nat) returns (acts: seq<Action>)
    requires limit >= 1
    ensures Runs(Init(now), acts, w) && Stuck(After(Init(now), acts, w), limit)
  {
    var s1 := Apply(Init(now), Incr);
    var s2 := Apply(s1, LoseExpire);
    acts := Burst(s2, limit - 1, w);
    acts := Cons(s1, LoseExpire, acts, w);
    acts := Cons(Init(now), Incr, acts, w);
  }

  // ----- the two limiters

  datatype Decision = FailOpen | Pass(remaining: int) | TooMany

  datatype AllowResult = Unavailable | Answer(allowed: bool, count: nat, remaining: int, resetIn: int)

  const MINUTE := 60

  /** What the middleware decides on a request counted as hit `n`; without an answer it lets the request pass. */
  function Decide(n: Positive, limit: int, incr: Reply): Decision {
    if incr != Answered then FailOpen else if n > limit then TooMany else Pass(limit - n)
  }

  /** The answer to TTL: the time left, or -1 for a key without an expiry. */
  function TimeToLive(c: Counter, now: int): int {
    if c.expiresAt.Some? then c.expiresAt.value - now else -1
  }

  /** The counter after the EXPIRE that the first hit of a window sends. */
  function Windowed(c: Counter, now: int, window: int, expire: Reply): Counter {
    if c.count == 1 && expire != Refused then c.(expiresAt := Some(now + window)) else c
  }

  /** The counter after a call: without an answer to INCR no EXPIRE is sent, also when the hit was counted. */
  function Counted(c: Option<Counter>, now: int, window: int, incr: Reply, expire: Reply): Option<Counter> {
    match incr
    case Refused => c
    case Lost => Some(Incremented(c, now))
    case Answered => Some(Windowed(Incremented(c, now), now, window, expire))
  }

  /** What Allow answers for the counter as INCR leaves it; an error of any of its commands is reported. */
  function Report(c: Counter, now: int, limit: int, window: int, incr: Reply, expire: Reply, ttlUp: bool): AllowResult {
    if incr != Answered || !ttlUp || (c.count == 1 && expire != Answered) then Unavailable
    else Answer(c.count <= limit, c.count, Max0(limit - c.count), TimeToLive(Windowed(c, now, window, expire), now))
  }

  /** The two answers agree: both tell whether the request passes, and what is left. */
  predicate Agree(d: Decision, r: AllowResult) {
    r.Answer? && d != FailOpen && (d.Pass? <==> r.allowed) && (d.Pass? ==> d.remaining == r.remaining)
  }

  /**
   On equal counters, and with the same answers from Redis, the two limiters agree if and only if INCR and
   TTL are answered and, on the first hit of a window, EXPIRE is too.
   */
  lemma AgreeExactlyWhen(c: Counter, now: int, limit: int, window: int, incr: Reply, expire: Reply, ttlUp: bool)
    ensures Agree(Decide(c.count, limit, incr), Report(c, now, limit, window, incr, expire, ttlUp))
            <==> incr == Answered && ttlUp && (c.count > 1 || expire == Answered)
  {}

  /** On a first hit whose EXPIRE fails, the middleware lets the request pass and Allow reports an error. */
  lemma FirstHitDiffers(now: int, limit: int, window: int, expire: Reply)
    requires limit >= 1 && expire != Answered
    ensures var c := Incremented(None, now);
            && Decide(c.count, limit, Answered) == Pass(limit - 1)
            && Report(c, now, limit, window, Answered, expire, true) == Unavailable
  {}

  /** One Redis counter. `least` is the shortest window its users set. */
  class Limiter {
    var counter: Option<Counter>
    var now: int
    const least: int
    ghost var model: State

    ghost predicate Valid()
      reads this
    {
      && least > 0 && model.counter == counter && model.now == now && !model.pending
      && Reachable(model, least)
    }

    constructor (least: int, now: int)
      requires least > 0
      ensures Valid() && counter == None && this.now == now && this.least == least
    {
      this.least, this.now, counter, model := least, now, None, Init(now);
      new;
      assert Runs(Init(now), [], least) && After(Init(now), [], least) == Init(now);
    }

    ghost method Take(a: Action)
      requires Reachable(model, least) && Enabled(model, a, least)
      modifies this`model
      ensures model == Apply(old(model), a) && Reachable(model, least)
    {
      var t, acts :| Runs(Init(t), acts, least) && After(Init(t), acts, least) == model;
      Snoc(Init(t), acts, a, least);
      model := Apply(model, a);
    }

    method Wait(to: int)
      requires Valid() && to >= now
      modifies `now, `model
      ensures Valid() && now == to && counter == old(counter) && model.log == old(model.log)
    {
      Take(Tick(to));
      now := to;
    }

    /** The request was logged as the next hit, with the count INCR gave it on the counter `c`. */
    ghost predicate Logged(log: seq<Hit>, c: Option<Counter>)
      reads this
    {
      && |model.log| == |log| + 1 && model.log[..|log|] == log
      && model.log[|log|].at == now && model.log[|log|].count == Incremented(c, now).count
    }

    /** INCR; the count is known when it is answered. Of a first hit nobody knows of, no EXPIRE will come. */
    method Incr(incr: Reply) returns (n: Option<Positive>)
      requires Valid()
      modifies `counter, `model
      ensures Reachable(model, least) && model.counter == counter && model.now == now
      ensures incr == Refused ==> counter == old(counter) && model == old(model)
      ensures incr != Refused ==>
                counter == Some(Incremented(old(counter), now)) && Logged(old(model.log), old(counter))
      ensures n == if incr == Answered then Some(Incremented(old(counter), now).count) else None
      ensures model.pending <==> n == Some(1)
    {
      if incr == Refused { return None; }
      var c := Incremented(counter, now);
      counter := Some(c);
      Take(Action.Incr);
      if incr == Lost {
        if c.count == 1 { Take(LoseExpire); }
        return None;
      }
      return Some(c.count);
    }

    /** The EXPIRE of a first hit. */
    method Expire(window: int, expire: Reply)
      requires Reachable(model, least) && model.counter == counter && model.now == now && model.pending && least > 0
      requires counter.Some? && counter.value.expiresAt.None? && counter.value.count == 1 && window >= least
      modifies `counter, `model
      ensures Valid() && model.log == old(model.log)
      ensures counter == Some(Windowed(old(counter).value, now, window, expire))
    {
      if expire == Refused {
        Take(LoseExpire);
      } else {
        Take(Action.Expire(window));
        counter := Some(counter.value.(expiresAt := Some(now + window)));
      }
    }

    /**
     RateLimitMiddleware: without an answer to INCR the request passes, counted or not; the answer to EXPIRE
     is ignored. The requests that pass by the count are those the bound on a span counts.
     */
    method Middleware(limit: int, incr: Reply, expire: Reply) returns (d: Decision)
      requires Valid() && MINUTE >= least
      modifies `counter, `model
      ensures Valid() && counter == Counted(old(counter), now, MINUTE, incr, expire)
      ensures d == Decide(Incremented(old(counter), now).count, limit, incr)
      ensures incr == Refused ==> model == old(model)
      ensures incr != Refused ==> Logged(old(model.log), old(counter))
      ensures incr == Answered && !Live(old(counter), now) && expire != Refused ==>
                counter == Some(Counter(1, Some(now + 60)))
      ensures incr == Answered ==> (d.Pass? <==> model.log[|old(model.log)|].count <= limit)
    {
      var n := Incr(incr);
      if n.None? { return FailOpen; }
      if n.value == 1 { Expire(MINUTE, expire); }
      var remaining := limit - n.value;
      if remaining < 0 { remaining := 0; }
      if n.value > limit { return TooMany; }
      return Pass(remaining);
    }

    /** RateLimiter.Allow: any Redis error is reported, also after the request was counted. */
    method Allow(limit: int, window: int, incr: Reply, expire: Reply, ttlUp: bool) returns (r: AllowResult)
      requires Valid() && window >= least
      modifies `counter, `model
      ensures Valid() && counter == Counted(old(counter), now, window, incr, expire)
      ensures r == Report(Incremented(old(counter), now), now, limit, window, incr, expire, ttlUp)
      ensures incr == Refused ==> model == old(model)
      ensures incr != Refused ==> Logged(old(model.log), old(counter))
      ensures r.Answer? ==>
                && counter.Some? && r.count == counter.value.count
                && r.resetIn == (if counter.value.expiresAt.Some? then counter.value.expiresAt.value - now else -1)
      ensures r.Answer? && r.count == 1 ==> r.resetIn == window
      ensures r.Answer? ==> incr != Refused && (r.allowed <==> model.log[|old(model.log)|].count <= limit)
    {
      var n := Incr(incr);
      if n.None? { return Unavailable; }
      if n.value == 1 {
        Expire(window, expire);
        if expire != Answered { return Unavailable; }
      }
      if !ttlUp { return Unavailable; }
      var ttl := TimeToLive(counter.value, now);
      var remaining := limit - n.value;
      if remaining < 0 { remaining := 0; }
      return Answer(n.value <= limit, n.value, remaining, ttl);
    }

    /** ResetIn counts down: a request that comes `wait` after the first of a window is told that much less. */
    method ResetCountsDown(limit: int, window: int, wait: nat) returns (first: AllowResult, second: AllowResult)
      requires Valid() && window >= least && !Live(counter, now) && wait < window
      modifies `counter, `now, `model
      ensures Valid()
      ensures first == Answer(1 <= limit, 1, Max0(limit - 1), window)
      ensures second == Answer(2 <= limit, 2, Max0(limit - 2), window - wait)
    {
      first := Allow(limit, window, Answered, Answered, true);
      Wait(now + wait);
      second := Allow(limit, window, Answered, Answered, true);
    }

    /** Whatever was asked of the limiters so far, fewer than twice the limit passed by the count in any span. */
    lemma Bounded(limit: int, a: int)
      requires Valid()
      ensures |AllowedIn(model, limit, a, least)| <= SpanLimit(limit)
    {
      var t, acts :| Runs(Init(t), acts, least) && After(Init(t), acts, least) == model;
      LessThanTwiceTheLimit(t, acts, least, limit, a);
    }
  }

  /**
   The two limiters asked at the same moment, over equal counters and with the same answers from Redis: they
   count alike whatever fails, and agree if and only if INCR and TTL are answered and, on the
   first hit of a window, EXPIRE is too.
   */
  method SameDecision(a: Limiter, b: Limiter, limit: int, incr: Reply, expire: Reply, ttlUp: bool)
    returns (d: Decision, r: AllowResult)
    requires a != b && a.Valid() && b.Valid() && a.counter == b.counter && a.now == b.now
    requires MINUTE >= a.least && MINUTE >= b.least
    modifies a`counter, a`model, b`counter, b`model
    ensures a.Valid() && b.Valid() && a.counter == b.counter
    ensures var n := Incremented(old(a.counter), a.now).count;
            Agree(d, r) <==> incr == Answered && ttlUp && (n > 1 || expire == Answered)
  {
    d := a.Middleware(limit, incr, expire);
    r := b.Allow(limit, MINUTE, incr, expire, ttlUp);
    AgreeExactlyWhen(Incremented(old(a.counter), a.now), a.now, limit, MINUTE, incr, expire, ttlUp);
  }
}
