/**
 * The bounded worker pool (src/kernel/concurrency.ts:16-28).  The workers share a counter, a failure and
 * an array of results; between two awaits a worker runs alone, so a run is an interleaving of two kinds
 * of step: an idle worker claims the next index, and a running worker's item settles.  `f(i)` is how item
 * `i` settles when it is started; a schedule says which worker moves next, and every schedule is covered.
 */
module WorkerPool {
  import opened Basics

  datatype Outcome<+R, +E> = Fulfilled(value: R) | Rejected(error: E)

  datatype Worker = Idle | Running(item: nat) | Done

  datatype Event = Start(item: nat) | Finish(item: nat) | Fail(item: nat)

  /** The shared variables, the workers, and, for stating what happened, the events so far. */
  datatype State<R, E> = State(
    next: nat, failed: bool, failure: Option<E>, out: seq<Option<R>>, workers: seq<Worker>, log: seq<Event>)

  function Width(n: nat, limit: int): (w: nat)
    ensures w >= 1
  {
    var m := if limit < n then limit else n;
    if m < 1 then 1 else m
  }

  function Init<R, E>(n: nat, limit: int): State<R, E> {
    State(0, false, None, seq(n, _ => None), seq(Width(n, limit), _ => Idle), [])
  }

  /** `const i = next++`, then either return or call `fn`. */
  function Claim<R, E>(s: State<R, E>, w: nat): State<R, E>
    requires w < |s.workers|
  {
    var i := s.next;
    if i >= |s.out| || s.failed then s.(next := i + 1, workers := s.workers[w := Done])
    else s.(next := i + 1, workers := s.workers[w := Running(i)], log := s.log + [Start(i)])
  }

  /** The awaited call settles: its value is stored and the worker goes on, or the first failure is recorded and the worker ends. */
  function Settle<R, E>(s: State<R, E>, w: nat, f: nat -> Outcome<R, E>): State<R, E>
    requires w < |s.workers| && s.workers[w].Running? && s.workers[w].item < |s.out|
  {
    var i := s.workers[w].item;
    match f(i)
    case Fulfilled(v) => s.(out := s.out[i := Some(v)], workers := s.workers[w := Idle], log := s.log + [Finish(i)])
    case Rejected(e) =>
      var t := s.(workers := s.workers[w := Done], log := s.log + [Fail(i)]);
      if s.failed then t else t.(failed := true, failure := Some(e))
  }

  /** Worker `w` moves. */
  function Move<R, E>(s: State<R, E>, w: nat, f: nat -> Outcome<R, E>): State<R, E>
    requires Enabled(s, w)
  {
    if s.workers[w].Idle? then Claim(s, w) else Settle(s, w, f)
  }

  predicate Enabled<R, E>(s: State<R, E>, w: nat) {
    && w < |s.workers| && !s.workers[w].Done?
    && (s.workers[w].Running? ==> s.workers[w].item < |s.out|)
  }

  predicate AllDone<R, E>(s: State<R, E>) {
    forall w | 0 <= w < |s.workers| :: s.workers[w].Done?
  }

  /** `tr` is a run from the start: each state follows from the one before by some worker's move. */
  ghost predicate IsRun<R, E>(tr: seq<State<R, E>>, n: nat, limit: int, f: nat -> Outcome<R, E>) {
    && tr != []
    && tr[0] == Init(n, limit)
    && forall t | 0 <= t < |tr| - 1 :: Follows(tr[t], tr[t + 1], f)
  }

  ghost predicate Follows<R, E>(s: State<R, E>, s': State<R, E>, f: nat -> Outcome<R, E>) {
    exists w: nat :: Enabled(s, w) && s' == Move(s, w, f)
  }

  // ---- reading the log

  function Starts(log: seq<Event>): seq<nat> {
    if log == [] then []
    else Starts(log[..|log| - 1]) + (if log[|log| - 1].Start? then [log[|log| - 1].item] else [])
  }

  function Fails(log: seq<Event>): seq<nat> {
    if log == [] then []
    else Fails(log[..|log| - 1]) + (if log[|log| - 1].Fail? then [log[|log| - 1].item] else [])
  }

  lemma LogSnoc(log: seq<Event>, e: Event)
    ensures Starts(log + [e]) == if e.Start? then Starts(log) + [e.item] else Starts(log)
    ensures Fails(log + [e]) == if e.Fail? then Fails(log) + [e.item] else Fails(log)
  {
    assert (log + [e])[..|log|] == log;
  }

  /** 0, 1, ..., k-1. */
  function UpTo(k: nat): seq<nat> { seq(k, i => i) }

  ghost predicate NoStartAfterFail(log: seq<Event>) {
    forall p, q | 0 <= p < q < |log| :: !(log[p].Fail? && log[q].Start?)
  }

  function StartedCount<R, E>(s: State<R, E>): nat { |Starts(s.log)| }

  ghost predicate InFlight<R, E>(s: State<R, E>, i: nat) {
    exists w | 0 <= w < |s.workers| :: s.workers[w] == Running(i)
  }

  // ---- what every reachable state keeps

  /** Claims: the started indices are 0, 1, ..., in order, and none is started once an item failed. */
  ghost predicate ClaimsInOrder<R, E>(s: State<R, E>, n: nat) {
    var k := StartedCount(s);
    && Starts(s.log) == UpTo(k)
    && k <= n
    && k <= s.next
    && (!s.failed ==> k == if s.next < n then s.next else n)
    && NoStartAfterFail(s.log)
    && (!s.failed ==> forall p | 0 <= p < |s.log| :: !s.log[p].Fail?)
  }

  /** A running item was started, and has neither a value nor failed yet. */
  ghost predicate RunningOpen<R, E>(s: State<R, E>) {
    forall w | 0 <= w < |s.workers| && s.workers[w].Running? ::
      var i := s.workers[w].item;
      i < StartedCount(s) && i < |s.out| && s.out[i] == None && i !in Fails(s.log)
  }

  /** No item runs twice. */
  ghost predicate RunningOnce<R, E>(s: State<R, E>) {
    forall v, w | 0 <= v < w < |s.workers| && s.workers[v].Running? && s.workers[w].Running? ::
      s.workers[v].item != s.workers[w].item
  }

  /** Stored values are what started items settled with; failed items were started and did fail. */
  ghost predicate SettledRight<R, E>(s: State<R, E>, f: nat -> Outcome<R, E>) {
    && (forall i | 0 <= i < |s.out| && s.out[i].Some? :: i < StartedCount(s) && f(i) == Fulfilled(s.out[i].value))
    && (forall i | i in Fails(s.log) :: i < StartedCount(s) && f(i).Rejected?)
  }

  /** Every started item is in flight, or its value is stored, or it has failed. */
  ghost predicate StartedAccounted<R, E>(s: State<R, E>) {
    forall i | 0 <= i < StartedCount(s) && i < |s.out| :: s.out[i].Some? || InFlight(s, i) || i in Fails(s.log)
  }

  /** The failure recorded is that of the first item to fail; workers end only when there is nothing left to claim. */
  ghost predicate FailureIsFirst<R, E>(s: State<R, E>, n: nat, f: nat -> Outcome<R, E>) {
    && (s.failed <==> Fails(s.log) != [])
    && (s.failed ==> f(Fails(s.log)[0]).Rejected? && s.failure == Some(f(Fails(s.log)[0]).error))
    && (!s.failed ==> s.failure == None)
    && (forall w | 0 <= w < |s.workers| && s.workers[w].Done? :: s.failed || s.next >= n)
  }

  ghost predicate Inv<R, E>(s: State<R, E>, n: nat, limit: int, f: nat -> Outcome<R, E>) {
    && |s.workers| == Width(n, limit)
    && |s.out| == n
    && ClaimsInOrder(s, n)
    && RunningOpen(s)
    && RunningOnce(s)
    && SettledRight(s, f)
    && StartedAccounted(s)
    && FailureIsFirst(s, n, f)
  }

  lemma InitInv<R, E>(n: nat, limit: int, f: nat -> Outcome<R, E>)
    ensures Inv(Init(n, limit), n, limit, f)
  {
  }

  /** What one move does to worker `w`, the results and the log; all else stays. */
  ghost predicate Effect<R, E>(s: State<R, E>, t: State<R, E>, w: nat, to: Worker, out: seq<Option<R>>, starts: seq<nat>, fails: seq<nat>) {
    && w < |s.workers| && t.workers == s.workers[w := to]
    && t.out == out
    && Starts(t.log) == starts && Fails(t.log) == fails
  }

  lemma InFlightKept<R, E>(s: State<R, E>, t: State<R, E>, w: nat, to: Worker)
    requires w < |s.workers| && t.workers == s.workers[w := to]
    ensures forall j | InFlight(s, j) && s.workers[w] != Running(j) :: InFlight(t, j)
    ensures to.Running? ==> InFlight(t, to.item)
  {
    forall j | InFlight(s, j) && s.workers[w] != Running(j) ensures InFlight(t, j) {
      var v :| 0 <= v < |s.workers| && s.workers[v] == Running(j);
      assert t.workers[v] == Running(j);
    }
    if to.Running? { assert t.workers[w] == to; }
  }

  lemma ClaimEffect<R, E>(s: State<R, E>, w: nat)
    requires w < |s.workers|
    ensures var i := s.next;
            if i < |s.out| && !s.failed
            then Effect(s, Claim(s, w), w, Running(i), s.out, Starts(s.log) + [i], Fails(s.log))
            else Effect(s, Claim(s, w), w, Done, s.out, Starts(s.log), Fails(s.log))
  {
    LogSnoc(s.log, Start(s.next));
  }

  lemma SettleEffect<R, E>(s: State<R, E>, w: nat, f: nat -> Outcome<R, E>)
    requires w < |s.workers| && s.workers[w].Running? && s.workers[w].item < |s.out|
    ensures var i := s.workers[w].item;
            if f(i).Fulfilled?
            then Effect(s, Settle(s, w, f), w, Idle, s.out[i := Some(f(i).value)], Starts(s.log), Fails(s.log))
            else Effect(s, Settle(s, w, f), w, Done, s.out, Starts(s.log), Fails(s.log) + [i])
  {
    LogSnoc(s.log, Finish(s.workers[w].item));
    LogSnoc(s.log, Fail(s.workers[w].item));
  }

  lemma ClaimKeepsOrder<R, E>(s: State<R, E>, w: nat, n: nat)
    requires ClaimsInOrder(s, n) && |s.out| == n && w < |s.workers|
    ensures ClaimsInOrder(Claim(s, w), n)
  {
    hide Starts, Fails;
    ClaimEffect(s, w);
    var i := s.next;
    assert UpTo(i) + [i] == UpTo(i + 1);
  }

  lemma SettleKeepsOrder<R, E>(s: State<R, E>, w: nat, n: nat, f: nat -> Outcome<R, E>)
    requires ClaimsInOrder(s, n)
    requires w < |s.workers| && s.workers[w].Running? && s.workers[w].item < |s.out|
    ensures ClaimsInOrder(Settle(s, w, f), n)
  {
    hide Starts, Fails;
    SettleEffect(s, w, f);
  }

  lemma ClaimKeepsItems<R, E>(s: State<R, E>, w: nat, n: nat, limit: int, f: nat -> Outcome<R, E>)
    requires Inv(s, n, limit, f) && w < |s.workers| && s.workers[w].Idle?
    ensures var t := Claim(s, w); RunningOpen(t) && RunningOnce(t) && SettledRight(t, f) && StartedAccounted(t)
  {
    hide Starts, Fails, InFlight, Claim, NoStartAfterFail;
    var t := Claim(s, w);
    ClaimEffect(s, w);
    var to := if s.next < |s.out| && !s.failed then Running(s.next) else Done;
    InFlightKept(s, t, w, to);
  }

  lemma SettleKeepsItems<R, E>(s: State<R, E>, w: nat, n: nat, limit: int, f: nat -> Outcome<R, E>)
    requires Inv(s, n, limit, f) && w < |s.workers| && s.workers[w].Running? && s.workers[w].item < |s.out|
    ensures var t := Settle(s, w, f); RunningOpen(t) && RunningOnce(t) && SettledRight(t, f) && StartedAccounted(t)
  {
    hide Starts, Fails, InFlight, Settle, NoStartAfterFail;
    var t, i := Settle(s, w, f), s.workers[w].item;
    SettleEffect(s, w, f);
    InFlightKept(s, t, w, if f(i).Fulfilled? then Idle else Done);
  }

  lemma KeepsFailure<R, E>(s: State<R, E>, w: nat, n: nat, limit: int, f: nat -> Outcome<R, E>)
    requires Inv(s, n, limit, f) && Enabled(s, w)
    ensures FailureIsFirst(Move(s, w, f), n, f)
  {
    hide Starts, Fails, InFlight, NoStartAfterFail;
    if s.workers[w].Idle? { ClaimEffect(s, w); } else { SettleEffect(s, w, f); }
  }

  lemma MoveInv<R, E>(s: State<R, E>, w: nat, n: nat, limit: int, f: nat -> Outcome<R, E>)
    requires Inv(s, n, limit, f) && Enabled(s, w)
    ensures Inv(Move(s, w, f), n, limit, f)
  {
    hide ClaimsInOrder, RunningOpen, RunningOnce, SettledRight, StartedAccounted, FailureIsFirst;
    KeepsFailure(s, w, n, limit, f);
    if s.workers[w].Idle? {
      ClaimKeepsOrder(s, w, n);
      ClaimKeepsItems(s, w, n, limit, f);
    } else {
      SettleKeepsOrder(s, w, n, f);
      SettleKeepsItems(s, w, n, limit, f);
    }
  }

  /** Every state of every run keeps the invariant. */
  lemma {:induction false} RunInv<R, E>(tr: seq<State<R, E>>, n: nat, limit: int, f: nat -> Outcome<R, E>, t: nat)
    requires IsRun(tr, n, limit, f) && t < |tr|
    ensures Inv(tr[t], n, limit, f)
  {
    hide Inv, Move, Enabled;
    if t == 0 {
      InitInv(n, limit, f);
    } else {
      RunInv(tr, n, limit, f, t - 1);
      assert Follows(tr[t - 1], tr[t], f);
      var w: nat :| Enabled(tr[t - 1], w) && tr[t] == Move(tr[t - 1], w, f);
      MoveInv(tr[t - 1], w, n, limit, f);
    }
  }

  // ---- what a run guarantees

  function ItemsInFlight(ws: seq<Worker>): (items: set<nat>)
    ensures |items| <= |ws|
  {
    if ws == [] then {}
    else
      var rest := ItemsInFlight(ws[1..]);
      if ws[0].Running? then rest + {ws[0].item} else rest
  }

  lemma {:induction false} ItemsInFlightExact(ws: seq<Worker>, i: nat)
    ensures i in ItemsInFlight(ws) <==> exists w | 0 <= w < |ws| :: ws[w] == Running(i)
  {
    if ws != [] {
      ItemsInFlightExact(ws[1..], i);
      if i in ItemsInFlight(ws[1..]) {
        var w :| 0 <= w < |ws[1..]| && ws[1..][w] == Running(i);
        assert ws[w + 1] == Running(i);
      }
      if w :| 0 <= w < |ws| && ws[w] == Running(i) {
        if w > 0 { assert ws[1..][w - 1] == Running(i); }
      }
    }
  }

  /**
   * At any moment of any run, the indices started so far are 0, 1, ..., each once and in order; no more items
   * are in flight than the limit or than there are, and one at most when the limit is below one; nothing was
   * started after the first failure, and the failure recorded is the first one's.
   */
  lemma AnyMoment<R, E>(tr: seq<State<R, E>>, n: nat, limit: int, f: nat -> Outcome<R, E>, t: nat)
    requires IsRun(tr, n, limit, f) && t < |tr|
    ensures var s := tr[t];
            && Starts(s.log) == UpTo(StartedCount(s)) && StartedCount(s) <= n
            && (limit >= 1 ==> |ItemsInFlight(s.workers)| <= limit)
            && (limit < 1 ==> |ItemsInFlight(s.workers)| <= 1)
            && |ItemsInFlight(s.workers)| <= n
            && (forall i :: i in ItemsInFlight(s.workers) <==> InFlight(s, i))
            && NoStartAfterFail(s.log)
            && (s.failed <==> Fails(s.log) != [])
            && (s.failed ==> f(Fails(s.log)[0]).Rejected? && s.failure == Some(f(Fails(s.log)[0]).error))
  {
    RunInv(tr, n, limit, f, t);
    hide Starts, Fails;
    forall i ensures i in ItemsInFlight(tr[t].workers) <==> InFlight(tr[t], i) {
      ItemsInFlightExact(tr[t].workers, i);
    }
    BelowCount(ItemsInFlight(tr[t].workers), n);
  }

  /** Distinct indices below `n` are at most `n`. */
  lemma {:induction false} BelowCount(s: set<nat>, n: nat)
    requires forall i | i in s :: i < n
    ensures |s| <= n
  {
    if n > 0 {
      BelowCount(s - {n - 1}, n - 1);
      assert s <= s - {n - 1} + {n - 1};
    } else {
      assert s == {};
    }
  }

  /**
   * The number of workers in every state: at least one; one exactly when the limit is at most one or there is
   * at most one item; otherwise no more than the limit or the items, and as many as one of them.
   */
  lemma WorkersStarted<R, E>(tr: seq<State<R, E>>, n: nat, limit: int, f: nat -> Outcome<R, E>, t: nat)
    requires IsRun(tr, n, limit, f) && t < |tr|
    ensures var k := |tr[t].workers|;
            && k >= 1
            && (k == 1 <==> limit <= 1 || n <= 1)
            && (limit >= 1 && n >= 1 ==> k <= limit && k <= n && (k == limit || k == n))
  {
    hide Starts, Fails;
    RunInv(tr, n, limit, f, t);
  }

  ghost predicate AnyRejected<R, E>(n: nat, f: nat -> Outcome<R, E>) {
    exists i | 0 <= i < n :: f(i).Rejected?
  }

  /**
   * When every worker has ended, nothing is in flight; the map has failed exactly when some item rejects,
   * whatever the interleaving; otherwise the results are the items' values in item order.
   */
  lemma AtTheEnd<R, E>(tr: seq<State<R, E>>, n: nat, limit: int, f: nat -> Outcome<R, E>)
    requires IsRun(tr, n, limit, f) && AllDone(tr[|tr| - 1])
    ensures var s := tr[|tr| - 1];
            && (forall i :: !InFlight(s, i))
            && (s.failed <==> AnyRejected(n, f))
            && |s.out| == n
            && (!s.failed ==> Starts(s.log) == UpTo(n) && forall i | 0 <= i < n :: f(i).Fulfilled? && s.out[i] == Some(f(i).value))
            && (s.failed ==> forall i | 0 <= i < n :: i < StartedCount(s) ==> s.out[i].Some? || i in Fails(s.log))
  {
    var s := tr[|tr| - 1];
    RunInv(tr, n, limit, f, |tr| - 1);
    hide Starts, Fails, NoStartAfterFail, Follows;
    assert s.workers[0].Done?;
    if s.failed {
      assert Fails(s.log)[0] in Fails(s.log);
    }
  }

  // ---- every run ends

  function Weight(ws: seq<Worker>): nat {
    if ws == [] then 0
    else (match ws[0] case Done => 0 case Idle => 1 case Running(_) => 2) + Weight(ws[1..])
  }

  lemma {:induction false} WeightUpdate(ws: seq<Worker>, w: nat, to: Worker)
    requires w < |ws|
    ensures Weight(ws[w := to]) == Weight(ws) - Weight([ws[w]]) + Weight([to])
  {
    if w == 0 {
      assert ws[w := to][1..] == ws[1..];
    } else {
      WeightUpdate(ws[1..], w - 1, to);
      assert ws[w := to][1..] == ws[1..][w - 1 := to];
    }
  }

  /** Unclaimed items and live workers: what a run still can do. */
  function Measure<R, E>(s: State<R, E>, n: nat): int { 3 * (n - StartedCount(s)) + Weight(s.workers) }

  lemma MoveDecreases<R, E>(s: State<R, E>, w: nat, n: nat, limit: int, f: nat -> Outcome<R, E>)
    requires Inv(s, n, limit, f) && Enabled(s, w)
    ensures Measure(Move(s, w, f), n) < Measure(s, n)
  {
    hide Starts, Fails, InFlight;
    if s.workers[w].Idle? {
      ClaimEffect(s, w);
      WeightUpdate(s.workers, w, Running(s.next));
    } else {
      SettleEffect(s, w, f);
      WeightUpdate(s.workers, w, Idle);
    }
    WeightUpdate(s.workers, w, Done);
  }

  lemma {:induction false} WeightIdle(ws: seq<Worker>)
    requires forall w | 0 <= w < |ws| :: ws[w].Idle?
    ensures Weight(ws) == |ws|
  {
    if ws != [] { WeightIdle(ws[1..]); }
  }

  ghost predicate CanMove<R, E>(s: State<R, E>) { exists w: nat :: Enabled(s, w) }

  /** No run is longer than three moves an item and one a worker, and a run that has not come to its end can go on. */
  lemma {:induction false} RunsEnd<R, E>(tr: seq<State<R, E>>, n: nat, limit: int, f: nat -> Outcome<R, E>)
    requires IsRun(tr, n, limit, f)
    ensures 0 <= Measure(tr[|tr| - 1], n) <= 3 * n + Width(n, limit) - (|tr| - 1)
    ensures AllDone(tr[|tr| - 1]) || CanMove(tr[|tr| - 1])
  {
    var s := tr[|tr| - 1];
    RunInv(tr, n, limit, f, |tr| - 1);
    if |tr| == 1 {
      WeightIdle(s.workers);
    } else {
      var before := tr[..|tr| - 1];
      assert forall t | 0 <= t < |before| - 1 :: Follows(before[t], before[t + 1], f) by {
        forall t | 0 <= t < |before| - 1 ensures Follows(before[t], before[t + 1], f) {
          assert Follows(tr[t], tr[t + 1], f);
        }
      }
      RunsEnd(before, n, limit, f);
      RunInv(tr, n, limit, f, |tr| - 2);
      assert Follows(tr[|tr| - 2], tr[|tr| - 2 + 1], f);
      var w: nat :| Enabled(tr[|tr| - 2], w) && s == Move(tr[|tr| - 2], w, f);
      MoveDecreases(tr[|tr| - 2], w, n, limit, f);
    }
    if !AllDone(s) {
      var w :| 0 <= w < |s.workers| && !s.workers[w].Done?;
      assert Enabled(s, w);
    }
  }

  /** A run has at most three moves an item and one a worker. */
  lemma RunLength<R, E>(tr: seq<State<R, E>>, n: nat, limit: int, f: nat -> Outcome<R, E>)
    requires IsRun(tr, n, limit, f)
    ensures |tr| - 1 <= 3 * n + |tr[0].workers|
  {
    hide Follows, Measure;
    RunsEnd(tr, n, limit, f);
  }

  // ---- one worker is the sequential map

  /** Awaiting the items one after the other, from the `i`-th on. */
  function Sequential<R, E>(n: nat, i: nat, f: nat -> Outcome<R, E>): Result<seq<R>, E>
    requires i <= n
    decreases n - i
  {
    if i == n then Ok([])
    else
      match f(i)
      case Rejected(e) => Err(e)
      case Fulfilled(v) =>
        var rest := Sequential(n, i + 1, f);
        if rest.Err? then rest else Ok([v] + rest.value)
  }

  /** With one worker, only the last item started can be in flight or have failed. */
  ghost predicate Solo<R, E>(s: State<R, E>) {
    && |s.workers| == 1
    && (s.workers[0].Running? ==> s.workers[0].item == StartedCount(s) - 1 && Fails(s.log) == [])
    && (s.workers[0].Idle? ==> Fails(s.log) == [])
    && (s.failed ==> StartedCount(s) > 0 && Fails(s.log) == [StartedCount(s) - 1])
  }

  lemma MoveSolo<R, E>(s: State<R, E>, n: nat, limit: int, f: nat -> Outcome<R, E>)
    requires Inv(s, n, limit, f) && Solo(s) && Enabled(s, 0)
    ensures Solo(Move(s, 0, f))
  {
    hide Starts, Fails, InFlight;
    if s.workers[0].Idle? { ClaimEffect(s, 0); } else { SettleEffect(s, 0, f); }
  }

  lemma {:induction false} RunSolo<R, E>(tr: seq<State<R, E>>, n: nat, limit: int, f: nat -> Outcome<R, E>, t: nat)
    requires IsRun(tr, n, limit, f) && t < |tr| && (limit <= 1 || n <= 1)
    ensures Solo(tr[t])
  {
    hide Solo, Inv, Move;
    if t == 0 {
      assert Solo(Init<R, E>(n, limit)) by { SoloInit<R, E>(n, limit); }
    } else {
      RunSolo(tr, n, limit, f, t - 1);
      RunInv(tr, n, limit, f, t - 1);
      assert Follows(tr[t - 1], tr[t - 1 + 1], f);
      var w: nat :| Enabled(tr[t - 1], w) && tr[t] == Move(tr[t - 1], w, f);
      SoloWidth(tr[t - 1], w);
      MoveSolo(tr[t - 1], n, limit, f);
    }
  }

  lemma SoloInit<R, E>(n: nat, limit: int)
    requires limit <= 1 || n <= 1
    ensures Solo(Init<R, E>(n, limit))
  {
  }

  lemma SoloWidth<R, E>(s: State<R, E>, w: nat)
    requires Solo(s) && Enabled(s, w)
    ensures w == 0
  {
  }

  lemma {:induction false} SequentialOk<R, E>(n: nat, i: nat, f: nat -> Outcome<R, E>)
    requires i <= n && forall j | i <= j < n :: f(j).Fulfilled?
    ensures Sequential(n, i, f).Ok? && |Sequential(n, i, f).value| == n - i
    ensures forall j | i <= j < n :: Sequential(n, i, f).value[j - i] == f(j).value
    decreases n - i
  {
    if i < n { SequentialOk(n, i + 1, f); }
  }

  lemma {:induction false} SequentialErr<R, E>(n: nat, i: nat, j: nat, f: nat -> Outcome<R, E>)
    requires i <= j < n && f(j).Rejected? && forall h | i <= h < j :: f(h).Fulfilled?
    ensures Sequential(n, i, f) == Err(f(j).error)
    decreases j - i
  {
    if i < j { SequentialErr(n, i + 1, j, f); }
  }

  /** What the map resolves or rejects with. */
  ghost predicate Answers<R, E>(s: State<R, E>, r: Result<seq<R>, E>) {
    match r
    case Ok(values) => !s.failed && |values| == |s.out| && forall i | 0 <= i < |values| :: s.out[i] == Some(values[i])
    case Err(e) => s.failed && s.failure == Some(e)
  }

  /** With a limit of at most one, or one item, every run answers as the sequential map does. */
  lemma OneWorkerIsSequential<R, E>(tr: seq<State<R, E>>, n: nat, limit: int, f: nat -> Outcome<R, E>)
    requires IsRun(tr, n, limit, f) && AllDone(tr[|tr| - 1]) && (limit <= 1 || n <= 1)
    ensures Answers(tr[|tr| - 1], Sequential(n, 0, f))
  {
    var s := tr[|tr| - 1];
    RunInv(tr, n, limit, f, |tr| - 1);
    RunSolo(tr, n, limit, f, |tr| - 1);
    AtTheEnd(tr, n, limit, f);
    if s.failed {
      var j := StartedCount(s) - 1;
      assert Fails(s.log) == [j];
      assert j in Fails(s.log);
      forall h: nat | h < j ensures f(h).Fulfilled? {
        assert s.out[h].Some? || h in Fails(s.log);
      }
      SequentialErr(n, 0, j, f);
    } else {
      SequentialOk(n, 0, f);
    }
  }

  // ---- the pool as the source runs it

  /** The shared variables; `out` is the array the workers fill. */
  class Pool<R, E> {
    const out: array<Option<R>>
    var next: nat
    var failed: bool
    var failure: Option<E>
    var workers: seq<Worker>
    ghost var log: seq<Event>

    ghost function View(): State<R, E>
      reads this, out
    {
      State(next, failed, failure, out[..], workers, log)
    }

    constructor (n: nat, limit: int)
      ensures View() == Init(n, limit) && fresh(out)
    {
      out := new Option<R>[n](_ => None);
      next, failed, failure, log := 0, false, None, [];
      workers := seq(Width(n, limit), _ => Idle);
      new;
      assert out[..] == seq(n, _ => None);
    }

    /** Up to the next await of worker `w`. */
    method ClaimNext(w: nat)
      requires w < |workers|
      modifies this
      ensures View() == Claim(old(View()), w)
    {
      var i := next;
      next := next + 1;
      if i >= out.Length || failed {
        workers := workers[w := Done];
      } else {
        workers, log := workers[w := Running(i)], log + [Start(i)];
      }
    }

    /** The await of worker `w` comes back with `result`. */
    method Settled(w: nat, result: Outcome<R, E>, ghost f: nat -> Outcome<R, E>)
      requires w < |workers| && workers[w].Running? && workers[w].item < out.Length && result == f(workers[w].item)
      modifies this, out
      ensures View() == Settle(old(View()), w, f)
    {
      var i := workers[w].item;
      match result {
        case Fulfilled(v) =>
          out[i] := Some(v);
          workers, log := workers[w := Idle], log + [Finish(i)];
        case Rejected(e) =>
          if !failed {
            failed, failure := true, Some(e);
          }
          workers, log := workers[w := Done], log + [Fail(i)];
      }
    }
  }

  /** `mapLimit`: start the workers, let them move in any order until all have ended, then answer. */
  method MapLimit<R, E>(n: nat, limit: int, f: nat -> Outcome<R, E>) returns (r: Result<seq<R>, E>, ghost tr: seq<State<R, E>>)
    ensures IsRun(tr, n, limit, f) && AllDone(tr[|tr| - 1]) && Answers(tr[|tr| - 1], r)
    ensures !AnyRejected(n, f) ==> r.Ok? && |r.value| == n && forall i | 0 <= i < n :: r.value[i] == f(i).value
    ensures AnyRejected(n, f) ==> r.Err? && exists j | 0 <= j < n :: f(j) == Rejected(r.error)
  {
    var pool := new Pool<R, E>(n, limit);
    tr := [pool.View()];
    while exists w :: 0 <= w < |pool.workers| && !pool.workers[w].Done?
      invariant IsRun(tr, n, limit, f) && tr[|tr| - 1] == pool.View()
      invariant fresh(pool) && fresh(pool.out)
      decreases 3 * n + Width(n, limit) + 1 - |tr|
    {
      RunsEnd(tr, n, limit, f);
      RunInv(tr, n, limit, f, |tr| - 1);
      var w :| 0 <= w < |pool.workers| && !pool.workers[w].Done?;
      ghost var before := pool.View();
      if pool.workers[w].Idle? {
        pool.ClaimNext(w);
      } else {
        pool.Settled(w, f(pool.workers[w].item), f);
      }
      assert Enabled(before, w) && pool.View() == Move(before, w, f);
      RunSnoc(tr, pool.View(), n, limit, f, w);
      tr := tr + [pool.View()];
    }
    AtTheEnd(tr, n, limit, f);
    RunInv(tr, n, limit, f, |tr| - 1);
    if pool.failed {
      assert Fails(pool.log)[0] in Fails(pool.log);
      r := Err(pool.failure.value);
    } else {
      r := Ok(seq(pool.out.Length, i requires 0 <= i < pool.out.Length && pool.out[i].Some? reads pool.out => pool.out[i].value));
    }
  }

  lemma RunSnoc<R, E>(tr: seq<State<R, E>>, s: State<R, E>, n: nat, limit: int, f: nat -> Outcome<R, E>, w: nat)
    requires IsRun(tr, n, limit, f) && Enabled(tr[|tr| - 1], w) && s == Move(tr[|tr| - 1], w, f)
    ensures IsRun(tr + [s], n, limit, f)
  {
    var more := tr + [s];
    forall t | 0 <= t < |more| - 1 ensures Follows(more[t], more[t + 1], f) {
      if t < |tr| - 1 { assert Follows(tr[t], tr[t + 1], f); }
    }
  }
}
