/**
 * The demo clock shared by several instances over one append-only table of offsets
 * (src/runtime/demo-clock.ts:79-136, 291-320).  A query and the use of its answer are separate steps, so
 * other instances may write in between; every interleaving is covered.
 */
module DemoClock {
  function Max(a: int, b: int): int { if a < b then b else a }

  /** An instance's cached offset and the id of the row it adopted last; ids count from 1, 0 is no row yet. */
  datatype Clock = Clock(offset: int, latest: nat)

  /** The offset of row `id`, or zero before there is a row. */
  function OffsetAt(table: seq<int>, id: nat): int
    requires id <= |table|
  {
    if id == 0 then 0 else table[id - 1]
  }

  function Adopt(c: Clock, id: nat, offset: int): Clock { Clock(Max(c.offset, offset), id) }

  /** Adopts the row read, if there is one newer than the row adopted before. */
  function AdoptNewer(c: Clock, id: nat, table: seq<int>): Clock
    requires id <= |table|
  {
    if id > c.latest then Adopt(c, id, OffsetAt(table, id)) else c
  }

  /** The offset a step to `at` writes when the base clock reads `baseNow`. */
  function StepOffset(c: Clock, at: int, baseNow: int): int { Max(c.offset, at - baseNow) }

  /** A step's row makes the time the step's instant, or leaves it where it is when it is past that already. */
  lemma StepReaches(c: Clock, at: int, baseNow: int)
    ensures var now, before := baseNow + StepOffset(c, at, baseNow), baseNow + c.offset;
            (before <= at ==> now == at) && (before >= at ==> now == before)
  {
  }

  // ---- instances, and everything that can happen between two awaits

  /** A step under way: its offset computed when the table had `seen` rows, or its row written. */
  datatype Pending = NoStep | Computed(offset: int, seen: nat) | Inserted(id: nat)

  /** An instance, its step under way, and the ids its unanswered queries have found. */
  datatype Inst = Inst(clock: Clock, step: Pending, unread: seq<nat>)

  datatype World = World(base: int, table: seq<int>, insts: seq<Inst>)

  datatype Action =
    | Tick(ms: nat)
    | Read(j: nat)
    | ReadBack(j: nat, k: nat)
    | Compute(j: nat, at: int)
    | Insert(j: nat)
    | StepBack(j: nat)

  predicate Enabled(w: World, a: Action) {
    match a
    case Tick(_) => true
    case Read(j) => j < |w.insts|
    case ReadBack(j, k) => j < |w.insts| && k < |w.insts[j].unread| && w.insts[j].unread[k] <= |w.table|
    case Compute(j, _) => j < |w.insts| && w.insts[j].step.NoStep?
    case Insert(j) => j < |w.insts| && w.insts[j].step.Computed?
    case StepBack(j) => j < |w.insts| && w.insts[j].step.Inserted? && 0 < w.insts[j].step.id <= |w.table|
  }

  function With(w: World, j: nat, i: Inst): World
    requires j < |w.insts|
  {
    w.(insts := w.insts[j := i])
  }

  function Do(w: World, a: Action): World
    requires Enabled(w, a)
  {
    match a
    case Tick(ms) => w.(base := w.base + ms)
    case Read(j) => With(w, j, w.insts[j].(unread := w.insts[j].unread + [|w.table|]))
    case ReadBack(j, k) =>
      var i := w.insts[j];
      With(w, j, i.(clock := AdoptNewer(i.clock, i.unread[k], w.table), unread := i.unread[..k] + i.unread[k + 1..]))
    case Compute(j, at) =>
      With(w, j, w.insts[j].(step := Computed(StepOffset(w.insts[j].clock, at, w.base), |w.table|)))
    case Insert(j) =>
      With(w.(table := w.table + [w.insts[j].step.offset]), j, w.insts[j].(step := Inserted(|w.table| + 1)))
    case StepBack(j) =>
      var i := w.insts[j];
      With(w, j, i.(clock := Adopt(i.clock, i.step.id, OffsetAt(w.table, i.step.id)), step := NoStep))
  }

  /** A run: `tr[t + 1]` comes from `tr[t]` by `acts[t]`. */
  ghost predicate IsRun(tr: seq<World>, acts: seq<Action>) {
    && |tr| == |acts| + 1
    && forall t | 0 <= t < |acts| :: Enabled(tr[t], acts[t]) && tr[t + 1] == Do(tr[t], acts[t])
  }

  /** What instance `j` reads as the time. */
  function Now(w: World, j: nat): int
    requires j < |w.insts|
  {
    w.base + w.insts[j].clock.offset
  }

  // ---- time never goes back

  /** Whatever the interleaving, no instance's time ever goes back; the table only grows. */
  lemma {:induction false} NowNeverBack(tr: seq<World>, acts: seq<Action>, t: nat, u: nat, j: nat)
    requires IsRun(tr, acts) && t <= u < |tr| && j < |tr[t].insts|
    ensures |tr[u].insts| == |tr[t].insts|
    ensures tr[t].insts[j].clock.offset <= tr[u].insts[j].clock.offset && Now(tr[t], j) <= Now(tr[u], j)
    ensures tr[t].table <= tr[u].table
    decreases u
  {
    if t < u {
      NowNeverBack(tr, acts, t, u - 1, j);
      assert tr[u - 1 + 1] == Do(tr[u - 1], acts[u - 1]);
    }
  }

  // ---- the adopted row

  /** A move takes an instance's adopted row back exactly when it is the answer to a step and a newer row was adopted meanwhile. */
  lemma AdoptedBackExact(w: World, a: Action, j: nat)
    requires Enabled(w, a) && j < |w.insts|
    ensures Do(w, a).insts[j].clock.latest < w.insts[j].clock.latest <==>
            a == StepBack(j) && w.insts[j].step.id < w.insts[j].clock.latest
  {
  }

  /** No row is written between a step's row and its answer. */
  ghost predicate AnsweredAlone(tr: seq<World>, acts: seq<Action>)
    requires IsRun(tr, acts)
  {
    forall t | 0 <= t < |acts| && acts[t].StepBack? :: tr[t].insts[acts[t].j].step.id == |tr[t].table|
  }

  /** Ids known to an instance are ids of rows. */
  ghost predicate IdsKnown(w: World) {
    forall j | 0 <= j < |w.insts| ::
      w.insts[j].clock.latest <= |w.table| && forall k | 0 <= k < |w.insts[j].unread| :: w.insts[j].unread[k] <= |w.table|
  }

  lemma {:induction false} RunIdsKnown(tr: seq<World>, acts: seq<Action>, t: nat)
    requires IsRun(tr, acts) && IdsKnown(tr[0]) && t < |tr|
    ensures IdsKnown(tr[t])
  {
    if t > 0 {
      RunIdsKnown(tr, acts, t - 1);
      assert tr[t - 1 + 1] == Do(tr[t - 1], acts[t - 1]);
    }
  }

  /** When every step is answered before another row is written, adopted rows never go back. */
  lemma {:induction false} AdoptedNeverBack(tr: seq<World>, acts: seq<Action>, t: nat, u: nat, j: nat)
    requires IsRun(tr, acts) && IdsKnown(tr[0]) && AnsweredAlone(tr, acts)
    requires t <= u < |tr| && j < |tr[t].insts|
    ensures |tr[u].insts| == |tr[t].insts| && tr[t].insts[j].clock.latest <= tr[u].insts[j].clock.latest
    decreases u
  {
    if t < u {
      AdoptedNeverBack(tr, acts, t, u - 1, j);
      RunIdsKnown(tr, acts, u - 1);
      AdoptedBackExact(tr[u - 1], acts[u - 1], j);
      assert tr[u - 1 + 1] == Do(tr[u - 1], acts[u - 1]);
    }
  }

  const FRESH := Inst(Clock(0, 0), NoStep, [])

  /** Without that, they can: instance 0 adopts row 2 from a read, and then the answer to its own row 1. */
  lemma AdoptedCanGoBack() returns (tr: seq<World>, acts: seq<Action>)
    ensures IsRun(tr, acts) && IdsKnown(tr[0]) && |acts| == 7
    ensures |tr[6].insts| == 2 == |tr[7].insts| && tr[6].insts[0].clock.latest == 2 && tr[7].insts[0].clock.latest == 1
  {
    var w0 := World(0, [], [FRESH, FRESH]);
    acts := [Compute(0, 10), Insert(0), Compute(1, 20), Insert(1), Read(0), ReadBack(0, 0), StepBack(0)];
    var one := Inst(Clock(0, 0), Inserted(2), []);
    var w4 := World(0, [10, 20], [Inst(Clock(0, 0), Inserted(1), []), one]);
    var first := TwoRows(w0, w4);
    var w5 := World(0, [10, 20], [Inst(Clock(0, 0), Inserted(1), [2]), one]);
    var w6 := World(0, [10, 20], [Inst(Clock(20, 2), Inserted(1), []), one]);
    var w7 := World(0, [10, 20], [Inst(Clock(20, 1), NoStep, []), one]);
    assert w4.insts[0].unread + [|w4.table|] == w5.insts[0].unread;
    assert Do(w4, Read(0)) == w5;
    assert w5.insts[0].unread[..0] + w5.insts[0].unread[0 + 1..] == [];
    assert Do(w5, ReadBack(0, 0)) == w6;
    assert Do(w6, StepBack(0)) == w7;
    tr := first + [w5, w6, w7];
  }

  /** Both instances step, one after the other. */
  lemma TwoRows(w0: World, w4: World) returns (tr: seq<World>)
    requires w0 == World(0, [], [FRESH, FRESH])
    requires w4 == World(0, [10, 20], [Inst(Clock(0, 0), Inserted(1), []), Inst(Clock(0, 0), Inserted(2), [])])
    ensures IsRun(tr, [Compute(0, 10), Insert(0), Compute(1, 20), Insert(1)]) && tr[0] == w0 && tr[4] == w4
  {
    var w1 := World(0, [], [Inst(Clock(0, 0), Computed(10, 0), []), FRESH]);
    var w2 := World(0, [10], [Inst(Clock(0, 0), Inserted(1), []), FRESH]);
    var w3 := World(0, [10], [Inst(Clock(0, 0), Inserted(1), []), Inst(Clock(0, 0), Computed(20, 1), [])]);
    assert Do(w0, Compute(0, 10)) == w1;
    assert Do(w1, Insert(0)) == w2;
    assert Do(w2, Compute(1, 20)) == w3;
    assert Do(w3, Insert(1)) == w4;
    tr := [w0, w1, w2, w3, w4];
  }

  // ---- the table

  function Last(table: seq<int>): int { OffsetAt(table, |table|) }

  ghost predicate Sorted(table: seq<int>) {
    forall a, b | 0 <= a < b <= |table| :: OffsetAt(table, a) <= OffsetAt(table, b)
  }

  /** In this run instance `j` computes a step with action `t` and writes its row with action `u`. */
  ghost predicate StepIn(tr: seq<World>, acts: seq<Action>, t: nat, u: nat, j: nat) {
    && IsRun(tr, acts)
    && t < u < |acts| && acts[t].Compute? && acts[t].j == j < |tr[t].insts| && acts[u] == Insert(j)
    && forall k | t < k < u :: acts[k] != Insert(j)
  }

  /** Between the two, the computed offset waits, whatever the others do. */
  lemma {:induction false} OffsetWaits(tr: seq<World>, acts: seq<Action>, t: nat, u: nat, j: nat, k: nat)
    requires StepIn(tr, acts, t, u, j) && t < k <= u
    ensures j < |tr[k].insts|
    ensures tr[k].insts[j].step == Computed(StepOffset(tr[t].insts[j].clock, acts[t].at, tr[t].base), |tr[t].table|)
  {
    assert tr[t + 1] == Do(tr[t], acts[t]);
    if k > t + 1 {
      OffsetWaits(tr, acts, t, u, j, k - 1);
      assert Enabled(tr[k - 1], acts[k - 1]) && tr[k - 1 + 1] == Do(tr[k - 1], acts[k - 1]);
      assert acts[k - 1] != Insert(j);
    }
  }

  /** The row a step writes was computed earlier, from what the instance knew then. */
  lemma RowWritten(tr: seq<World>, acts: seq<Action>, t: nat, u: nat, j: nat)
    requires StepIn(tr, acts, t, u, j)
    ensures tr[u + 1].table == tr[u].table + [StepOffset(tr[t].insts[j].clock, acts[t].at, tr[t].base)]
  {
    OffsetWaits(tr, acts, t, u, j, u);
    assert tr[u + 1] == Do(tr[u], acts[u]);
  }

  /** The same moves from the same start, up to the step's row, with the step going to another instant. */
  ghost predicate Retargeted(tr: seq<World>, acts: seq<Action>, t: nat, u: nat, j: nat, at: int, other: seq<World>)
    requires StepIn(tr, acts, t, u, j)
  {
    IsRun(other, acts[..u + 1][t := Compute(j, at)]) && other[0] == tr[0]
  }

  function WithOffset(w: World, j: nat, offset: int, seen: nat): World
    requires j < |w.insts|
  {
    With(w, j, w.insts[j].(step := Computed(offset, seen)))
  }

  /** A move that is not the row's own does the same whatever offset waits. */
  lemma OffsetIdle(w: World, a: Action, j: nat, offset: int, seen: nat)
    requires j < |w.insts| && w.insts[j].step.Computed? && a != Insert(j) && Enabled(w, a)
    ensures Enabled(WithOffset(w, j, offset, seen), a)
    ensures j < |Do(w, a).insts| && Do(WithOffset(w, j, offset, seen), a) == WithOffset(Do(w, a), j, offset, seen)
  {
    var v := WithOffset(w, j, offset, seen);
    assert Enabled(v, a);
    assert Do(v, a).insts == WithOffset(Do(w, a), j, offset, seen).insts;
  }

  /** A retargeted run differs only in the offset that waits. */
  lemma {:induction false} RetargetedSame(tr: seq<World>, acts: seq<Action>, t: nat, u: nat, j: nat, at: int, other: seq<World>, k: nat)
    requires StepIn(tr, acts, t, u, j) && Retargeted(tr, acts, t, u, j, at, other) && k <= u
    ensures k <= t ==> other[k] == tr[k]
    ensures k > t ==> j < |tr[k].insts| && other[k] == WithOffset(tr[k], j, StepOffset(tr[t].insts[j].clock, at, tr[t].base), |tr[t].table|)
  {
    hide Do, Enabled, StepOffset;
    if k > 0 {
      var acts' := acts[..u + 1][t := Compute(j, at)];
      RetargetedSame(tr, acts, t, u, j, at, other, k - 1);
      assert other[k - 1 + 1] == Do(other[k - 1], acts'[k - 1]) && tr[k - 1 + 1] == Do(tr[k - 1], acts[k - 1]);
      assert Enabled(tr[k - 1], acts[k - 1]);
      if k - 1 == t {
        Recomputed(tr[t], j, acts[t].at, at);
      } else if k - 1 > t {
        OffsetWaits(tr, acts, t, u, j, k - 1);
        OffsetIdle(tr[k - 1], acts[k - 1], j, StepOffset(tr[t].insts[j].clock, at, tr[t].base), |tr[t].table|);
      }
    }
  }

  lemma Recomputed(w: World, j: nat, at: int, at': int)
    requires Enabled(w, Compute(j, at))
    ensures j < |Do(w, Compute(j, at)).insts| && Enabled(w, Compute(j, at'))
    ensures Do(w, Compute(j, at')) == WithOffset(Do(w, Compute(j, at)), j, StepOffset(w.insts[j].clock, at', w.base), |w.table|)
  {
    assert Do(w, Compute(j, at')).insts == WithOffset(Do(w, Compute(j, at)), j, StepOffset(w.insts[j].clock, at', w.base), |w.table|).insts;
  }

  /** The run with the step going elsewhere. */
  lemma {:induction false} RetargetedRun(tr: seq<World>, acts: seq<Action>, t: nat, u: nat, j: nat, at: int) returns (other: seq<World>)
    requires StepIn(tr, acts, t, u, j)
    ensures Retargeted(tr, acts, t, u, j, at, other)
  {
    hide Do, Enabled, StepOffset;
    var acts' := acts[..u + 1][t := Compute(j, at)];
    other := [tr[0]];
    ghost var k := 0;
    while k < u + 1
      invariant 0 <= k <= u + 1 && |other| == k + 1 && other[0] == tr[0]
      invariant forall i | 0 <= i < k :: Enabled(other[i], acts'[i]) && other[i + 1] == Do(other[i], acts'[i])
      invariant k <= t ==> other[k] == tr[k]
      invariant t < k <= u ==> j < |tr[k].insts| && other[k] == WithOffset(tr[k], j, StepOffset(tr[t].insts[j].clock, at, tr[t].base), |tr[t].table|)
    {
      assert Enabled(tr[k], acts[k]) && tr[k + 1] == Do(tr[k], acts[k]);
      if k == t {
        Recomputed(tr[t], j, acts[t].at, at);
      } else if k > t {
        OffsetWaits(tr, acts, t, u, j, k);
        if k < u {
          OffsetIdle(tr[k], acts[k], j, StepOffset(tr[t].insts[j].clock, at, tr[t].base), |tr[t].table|);
        } else {
          InsertReady(other[k], j);
        }
      }
      other := other + [Do(other[k], acts'[k])];
      k := k + 1;
    }
  }

  lemma InsertReady(w: World, j: nat)
    requires j < |w.insts| && w.insts[j].step.Computed?
    ensures Enabled(w, Insert(j))
  {
  }

  /** The row a retargeted step writes. */
  lemma RetargetedRow(tr: seq<World>, acts: seq<Action>, t: nat, u: nat, j: nat, at: int, other: seq<World>)
    requires StepIn(tr, acts, t, u, j) && Retargeted(tr, acts, t, u, j, at, other)
    ensures other[u].table == tr[u].table
    ensures other[u + 1].table == tr[u].table + [StepOffset(tr[t].insts[j].clock, at, tr[t].base)]
  {
    var acts' := acts[..u + 1][t := Compute(j, at)];
    RetargetedSame(tr, acts, t, u, j, at, other, u);
    assert acts'[u] == Insert(j) && other[u + 1] == Do(other[u], acts'[u]);
  }

  /**
   * In any interleaving, a step's row does not fall below the row before it, wherever the step goes, exactly
   * when that row is not above what the instance's offset was when the step was computed.
   */
  lemma StepFallsExact(tr: seq<World>, acts: seq<Action>, t: nat, u: nat, j: nat)
    requires StepIn(tr, acts, t, u, j)
    ensures (forall at: int, other: seq<World> | Retargeted(tr, acts, t, u, j, at, other) :: Last(other[u].table) <= Last(other[u + 1].table))
            <==> Last(tr[u].table) <= tr[t].insts[j].clock.offset
  {
    hide Do, Enabled;
    RowWritten(tr, acts, t, u, j);
    var c, base := tr[t].insts[j].clock, tr[t].base;
    forall at: int, other: seq<World> | Retargeted(tr, acts, t, u, j, at, other)
      ensures Last(other[u].table) == Last(tr[u].table) && Last(other[u + 1].table) == StepOffset(c, at, base)
    {
      RetargetedRow(tr, acts, t, u, j, at, other);
    }
    if forall at: int, other: seq<World> | Retargeted(tr, acts, t, u, j, at, other) :: Last(other[u].table) <= Last(other[u + 1].table) {
      var other := RetargetedRun(tr, acts, t, u, j, base + c.offset);
      assert StepOffset(c, base + c.offset, base) == c.offset;
      assert Last(other[u].table) <= Last(other[u + 1].table);
    }
  }

  /** And it falls below none of the rows before it exactly when none of them is above that offset. */
  lemma BelowNoneExact(tr: seq<World>, acts: seq<Action>, t: nat, u: nat, j: nat)
    requires StepIn(tr, acts, t, u, j)
    ensures (forall at: int, other: seq<World> | Retargeted(tr, acts, t, u, j, at, other) ::
               forall k | 0 <= k < |tr[u].table| :: |other[u].table| == |tr[u].table| && other[u].table[k] <= Last(other[u + 1].table))
            <==> forall k | 0 <= k < |tr[u].table| :: tr[u].table[k] <= tr[t].insts[j].clock.offset
  {
    hide Do, Enabled;
    var c, base, table := tr[t].insts[j].clock, tr[t].base, tr[u].table;
    forall at: int, other: seq<World> | Retargeted(tr, acts, t, u, j, at, other)
      ensures other[u].table == table && Last(other[u + 1].table) == StepOffset(c, at, base)
    {
      RetargetedRow(tr, acts, t, u, j, at, other);
    }
    var other := RetargetedRun(tr, acts, t, u, j, base + c.offset);
    assert StepOffset(c, base + c.offset, base) == c.offset;
    assert Retargeted(tr, acts, t, u, j, base + c.offset, other);
  }

  /** Every step is computed by an instance that has adopted the newest row, and written before any other row is. */
  ghost predicate FreshSteps(tr: seq<World>, acts: seq<Action>)
    requires IsRun(tr, acts)
  {
    forall t | 0 <= t < |acts| ::
      && (acts[t].Compute? ==> tr[t].insts[acts[t].j].clock.latest == |tr[t].table|)
      && (acts[t].Insert? ==> tr[t].insts[acts[t].j].step.seen == |tr[t].table|)
  }

  ghost predicate FreshAction(w: World, a: Action)
    requires Enabled(w, a)
  {
    && (a.Compute? ==> w.insts[a.j].clock.latest == |w.table|)
    && (a.Insert? ==> w.insts[a.j].step.seen == |w.table|)
  }

  /** Each instance's offset lies between its adopted row's and the newest row's, as does a computed one if it is still fresh. */
  ghost predicate InstInLine(i: Inst, table: seq<int>) {
    && i.clock.latest <= |table|
    && OffsetAt(table, i.clock.latest) <= i.clock.offset <= Last(table)
    && (forall k | 0 <= k < |i.unread| :: i.unread[k] <= |table|)
    && (i.step.Computed? ==> i.step.seen <= |table| && (i.step.seen == |table| ==> Last(table) <= i.step.offset))
  }

  ghost predicate InLine(w: World) {
    && Sorted(w.table)
    && forall j | 0 <= j < |w.insts| :: InstInLine(w.insts[j], w.table)
  }

  lemma SortedLonger(table: seq<int>, offset: int)
    requires Sorted(table) && Last(table) <= offset
    ensures Sorted(table + [offset])
  {
    var more := table + [offset];
    forall a, b | 0 <= a < b <= |more| ensures OffsetAt(more, a) <= OffsetAt(more, b) {
      assert a <= |table| ==> OffsetAt(more, a) == OffsetAt(table, a);
      assert b <= |table| ==> OffsetAt(more, b) == OffsetAt(table, b);
    }
  }

  lemma DoInLine(w: World, a: Action)
    requires Enabled(w, a) && InLine(w) && FreshAction(w, a)
    ensures InLine(Do(w, a))
  {
    if a.Insert? {
      var offset := w.insts[a.j].step.offset;
      SortedLonger(w.table, offset);
      forall j | 0 <= j < |w.insts| ensures InstInLine(Do(w, a).insts[j], Do(w, a).table) {
      }
    }
  }

  /**
   * When every step follows a refresh with no foreign row in between, the table's offsets never fall, and
   * all instances that have adopted the newest row read the same time.
   */
  lemma {:induction false} FreshTableAgrees(tr: seq<World>, acts: seq<Action>, t: nat)
    requires IsRun(tr, acts) && InLine(tr[0]) && FreshSteps(tr, acts) && t < |tr|
    ensures Sorted(tr[t].table)
    ensures forall i, j | 0 <= i < |tr[t].insts| && 0 <= j < |tr[t].insts| &&
              tr[t].insts[i].clock.latest == |tr[t].table| == tr[t].insts[j].clock.latest :: Now(tr[t], i) == Now(tr[t], j)
    ensures InLine(tr[t])
  {
    if t > 0 {
      FreshTableAgrees(tr, acts, t - 1);
      DoInLine(tr[t - 1], acts[t - 1]);
      assert tr[t - 1 + 1] == Do(tr[t - 1], acts[t - 1]);
    }
  }

  /** Without that, the table can fall: instance 1 steps to 50 without having seen instance 0's row. */
  lemma TableCanFall() returns (tr: seq<World>, acts: seq<Action>)
    ensures IsRun(tr, acts) && InLine(tr[0]) && |acts| == 4 && tr[4].table == [100, 50]
  {
    var w0 := World(0, [], [FRESH, FRESH]);
    acts := [Compute(0, 100), Insert(0), Compute(1, 50), Insert(1)];
    var w1 := Do(w0, acts[0]);
    var w2 := Do(w1, acts[1]);
    var w3 := Do(w2, acts[2]);
    var w4 := Do(w3, acts[3]);
    tr := [w0, w1, w2, w3, w4];
  }

  /**
   * It can fall although every step is computed by an instance that has adopted the newest row: both
   * instances compute while the table is empty, and the further one writes first.
   */
  lemma OvertakenRowFalls() returns (tr: seq<World>, acts: seq<Action>)
    ensures IsRun(tr, acts) && InLine(tr[0]) && |acts| == 4 && tr[4].table == [100, 50]
    ensures forall t | 0 <= t < 4 && acts[t].Compute? :: acts[t].j < |tr[t].insts| && tr[t].insts[acts[t].j].clock.latest == |tr[t].table|
    ensures StepIn(tr, acts, 0, 3, 1) && Last(tr[0].table) <= tr[0].insts[1].clock.offset < Last(tr[3].table)
  {
    var w0 := World(0, [], [FRESH, FRESH]);
    acts := [Compute(1, 50), Compute(0, 100), Insert(0), Insert(1)];
    var w1 := Do(w0, acts[0]);
    var w2 := Do(w1, acts[1]);
    var w3 := Do(w2, acts[2]);
    var w4 := Do(w3, acts[3]);
    tr := [w0, w1, w2, w3, w4];
  }
}
