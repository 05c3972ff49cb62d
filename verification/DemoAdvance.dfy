/**
 * The clock object and the advance loop (src/runtime/demo-clock.ts:85-136, 262-320).  The base clock, the
 * budget and the other instances are free: the base clock moves forward by any amount whenever it is read,
 * the budget may be spent after any step, and during a step's passes any rows may be written by others.
 */
module DemoAdvance {
  import opened Basics
  import opened DemoPlan
  import opened DemoClock

  /** The system clock. */
  class BaseClock {
    var ms: int
    constructor (ms: int)
      ensures this.ms == ms
    {
      this.ms := ms;
    }

    /** A reading; time has passed since the last one. */
    method Now() returns (t: int)
      modifies this
      ensures t == ms >= old(ms)
    {
      var passed :| passed >= 0;
      ms := ms + passed;
      t := ms;
    }
  }

  /** The `demo_clock` table: the offsets of its rows, in the order of their ids. */
  class ClockTable {
    var offsets: seq<int>
    constructor ()
      ensures offsets == []
    {
      offsets := [];
    }
  }

  class OffsetClock {
    var offsetMs: int
    var latest: nat

    ghost function View(): Clock
      reads this
    {
      Clock(offsetMs, latest)
    }

    constructor (latestRow: Option<(nat, int)>)
      ensures latestRow == None ==> View() == Clock(0, 0)
      ensures latestRow.Some? ==> View() == Clock(latestRow.value.1, latestRow.value.0)
    {
      match latestRow
      case None => offsetMs, latest := 0, 0;
      case Some(row) => offsetMs, latest := row.1, row.0;
    }

    method Now(base: BaseClock) returns (t: int)
      modifies base
      ensures base.ms >= old(base.ms) && t == base.ms + offsetMs
    {
      var baseNow := base.Now();
      t := baseNow + offsetMs;
    }

    method AdoptRow(id: nat, offset: int)
      modifies this
      ensures View() == Adopt(old(View()), id, offset)
    {
      latest := id;
      if offset > offsetMs {
        offsetMs := offset;
      }
    }

    /** Re-reads the newest row. */
    method Refresh(db: ClockTable)
      modifies this
      ensures View() == AdoptNewer(old(View()), |db.offsets|, db.offsets)
    {
      if |db.offsets| > 0 && |db.offsets| > latest {
        AdoptRow(|db.offsets|, db.offsets[|db.offsets| - 1]);
      }
    }

    /** Writes one row and applies it: from here the clock reads `at` or later. */
    method Step(db: ClockTable, base: BaseClock, at: int)
      modifies this, db, base
      ensures base.ms >= old(base.ms)
      ensures var offset := StepOffset(old(View()), at, base.ms);
              && db.offsets == old(db.offsets) + [offset]
              && View() == Adopt(old(View()), |db.offsets|, offset)
      ensures offsetMs >= old(offsetMs) && base.ms + offsetMs >= at
    {
      var realNow := base.Now();
      var offset := if offsetMs < at - realNow then at - realNow else offsetMs;
      db.offsets := db.offsets + [offset];
      AdoptRow(|db.offsets|, offset);
    }
  }

  /** The clock a process starts with: the newest row's offset, or the system time. */
  method LoadClock(db: ClockTable) returns (clock: OffsetClock)
    ensures fresh(clock) && clock.View() == Clock(Last(db.offsets), |db.offsets|)
  {
    if |db.offsets| == 0 {
      clock := new OffsetClock(None);
    } else {
      clock := new OffsetClock(Some((|db.offsets|, db.offsets[|db.offsets| - 1])));
    }
  }

  /** A step as it was run. */
  datatype Ran = Ran(at: int, date: int, kind: Kind)

  datatype Report = Report(from: int, plan: Result<seq<Planned>, PlanError>, steps: seq<Ran>, remaining: nat, complete: bool)

  /** One step's passes: time passes, other instances may write rows, the clock is refreshed; the process may die at any point. */
  method SweepMinute(clock: OffsetClock, db: ClockTable, base: BaseClock) returns (finished: bool)
    modifies clock, db, base
    ensures base.ms >= old(base.ms) && clock.offsetMs >= old(clock.offsetMs)
    ensures old(db.offsets) <= db.offsets
  {
    var others: seq<int> := *;
    db.offsets := db.offsets + others;
    var _ := base.Now();
    finished := *;
    if finished {
      clock.Refresh(db);
    }
  }

  /** The steps run follow the plan: the same dates and kinds, no earlier than planned, in order of time. */
  ghost predicate FollowsPlan(steps: seq<Ran>, plan: seq<Planned>) {
    && |steps| <= |plan|
    && (forall i | 0 <= i < |steps| :: steps[i].date == plan[i].date && steps[i].kind == plan[i].kind && steps[i].at >= plan[i].at)
    && (forall i, j | 0 <= i < j < |steps| :: steps[i].at <= steps[j].at)
  }

  /**
   * The rows an advance has written so far, by id: one for each step of the plan in turn, each newer than the
   * one before and of no lower offset, and with each the clock has reached the step's instant.
   */
  ghost predicate OwnRows(rows: seq<nat>, table: seq<int>, plan: seq<Planned>, baseNow: int) {
    && |rows| <= |plan|
    && (forall i | 0 <= i < |rows| :: 0 < rows[i] <= |table| && plan[i].at <= baseNow + OffsetAt(table, rows[i]))
    && (forall i, j | 0 <= i < j < |rows| :: rows[i] < rows[j] && OffsetAt(table, rows[i]) <= OffsetAt(table, rows[j]))
  }

  lemma OwnRowsLater(rows: seq<nat>, table: seq<int>, plan: seq<Planned>, baseNow: int, table': seq<int>, baseNow': int)
    requires OwnRows(rows, table, plan, baseNow) && table <= table' && baseNow <= baseNow'
    ensures OwnRows(rows, table', plan, baseNow')
    ensures forall i | 0 <= i < |rows| :: rows[i] <= |table| && OffsetAt(table', rows[i]) == OffsetAt(table, rows[i])
  {
  }

  /** One turn of the loop: never before the planned instant, never before the clock; the row first, then the passes. */
  method RunStep(clock: OffsetClock, db: ClockTable, base: BaseClock, planned: Planned) returns (ran: Ran, finished: bool, ghost row: nat)
    modifies clock, db, base
    ensures base.ms >= old(base.ms) && clock.offsetMs >= old(clock.offsetMs)
    ensures old(db.offsets) < db.offsets && row == |old(db.offsets)| + 1
    ensures old(clock.offsetMs) <= OffsetAt(db.offsets, row) <= clock.offsetMs && planned.at <= base.ms + OffsetAt(db.offsets, row)
    ensures ran.date == planned.date && ran.kind == planned.kind && ran.at >= planned.at
    ensures old(base.ms + clock.offsetMs) <= ran.at <= base.ms + clock.offsetMs
  {
    var now := clock.Now(base);
    var at := planned.at;
    if at <= now {
      at := clock.Now(base);
    }
    clock.Step(db, base, at);
    row := |db.offsets|;
    finished := SweepMinute(clock, db, base);
    ran := Ran(at, planned.date, planned.kind);
  }

  lemma NothingRun(plan: Result<seq<Planned>, PlanError>, table: seq<int>, baseNow: int)
    ensures plan.Ok? ==> FollowsPlan([], plan.value) && OwnRows([], table, plan.value, baseNow)
  {
  }

  lemma {:induction false} RunOneMore(steps: seq<Ran>, plan: seq<Planned>, ran: Ran)
    requires FollowsPlan(steps, plan) && |steps| < |plan|
    requires ran.date == plan[|steps|].date && ran.kind == plan[|steps|].kind && ran.at >= plan[|steps|].at
    requires steps != [] ==> steps[|steps| - 1].at <= ran.at
    ensures FollowsPlan(steps + [ran], plan)
  {
    var more := steps + [ran];
    forall i, j | 0 <= i < j < |more| ensures more[i].at <= more[j].at {
      if j == |steps| && i < |steps| - 1 { assert steps[i].at <= steps[|steps| - 1].at; }
    }
  }

  lemma RowOneMore(rows: seq<nat>, table: seq<int>, plan: seq<Planned>, baseNow: int, row: nat)
    requires OwnRows(rows, table, plan, baseNow) && |rows| < |plan|
    requires 0 < row <= |table| && plan[|rows|].at <= baseNow + OffsetAt(table, row)
    requires rows != [] ==> rows[|rows| - 1] < row && OffsetAt(table, rows[|rows| - 1]) <= OffsetAt(table, row)
    ensures OwnRows(rows + [row], table, plan, baseNow)
  {
    var more := rows + [row];
    forall i, j | 0 <= i < j < |more| ensures more[i] < more[j] && OffsetAt(table, more[i]) <= OffsetAt(table, more[j]) {
      if j == |rows| && i < |rows| - 1 { assert rows[i] < rows[|rows| - 1]; }
    }
  }

  /**
   * One request: plans from the refreshed clock to the target, then runs steps until the plan or the budget is
   * used up, or the process dies.  `r.steps` are the steps whose passes finished and `rows` the rows written:
   * wherever it is cut off, the newest own row is that of the last finished step or of the next one.  A request
   * that is not cut off runs at least one planned step, skips none and leaves no row open.
   */
  method Advance(z: Zone, clock: OffsetClock, db: ClockTable, base: BaseClock, target: int) returns (r: Report, died: bool, ghost rows: seq<nat>)
    modifies clock, db, base
    ensures base.ms >= old(base.ms) && clock.offsetMs >= old(clock.offsetMs) && old(db.offsets) <= db.offsets
    ensures r.from >= old(base.ms + clock.offsetMs)
    ensures old(AdoptNewer(clock.View(), |db.offsets|, db.offsets)).offset + old(base.ms) <= r.from
    ensures r.plan == Plan(z, r.from, target) && r.from <= base.ms + clock.offsetMs
    ensures r.plan.Err? || r.plan == Ok([]) ==> r.steps == [] && rows == [] && db.offsets == old(db.offsets) && !died
    ensures r.plan.Ok? ==>
      && FollowsPlan(r.steps, r.plan.value)
      && OwnRows(rows, db.offsets, r.plan.value, base.ms)
      && |r.steps| <= |rows| <= |r.steps| + 1
      && r.remaining == |r.plan.value| - |r.steps|
      && (r.complete <==> r.remaining == 0)
      && (!died ==> |rows| == |r.steps| && (r.plan.value != [] ==> r.steps != []))
    ensures r.steps != [] ==> base.ms + clock.offsetMs >= r.steps[|r.steps| - 1].at
    ensures rows != [] ==> |db.offsets| >= rows[|rows| - 1] > |old(db.offsets)| && clock.offsetMs >= OffsetAt(db.offsets, rows[|rows| - 1])
  {
    hide FollowsPlan, OwnRows, Plan, DaySteps;
    clock.Refresh(db);
    var from := clock.Now(base);
    var plan := PlanSteps(z, from, target);
    rows := [];
    NothingRun(plan, db.offsets, base.ms);
    if plan.Err? || plan.value == [] {
      return Report(from, plan, [], 0, true), false, [];
    }
    var steps: seq<Ran>, i := [], 0;
    died := false;
    while i < |plan.value|
      invariant 0 <= i == |steps| == |rows| <= |plan.value| && !died
      invariant FollowsPlan(steps, plan.value) && OwnRows(rows, db.offsets, plan.value, base.ms)
      invariant from <= base.ms + clock.offsetMs
      invariant steps != [] ==> base.ms + clock.offsetMs >= steps[|steps| - 1].at
      invariant base.ms >= old(base.ms) && clock.offsetMs >= old(clock.offsetMs) && old(db.offsets) <= db.offsets
      invariant rows != [] ==> |old(db.offsets)| < rows[|rows| - 1] <= |db.offsets| && OffsetAt(db.offsets, rows[|rows| - 1]) <= clock.offsetMs
    {
      var dies: bool := *;
      if dies {
        died := true;
        break;
      }
      if i > 0 {
        var spent: bool := *;
        if spent {
          break;
        }
      }
      ghost var table, baseNow := db.offsets, base.ms;
      var ran, finished;
      ghost var row;
      ran, finished, row := RunStep(clock, db, base, plan.value[i]);
      OwnRowsLater(rows, table, plan.value, baseNow, db.offsets, base.ms);
      RowOneMore(rows, db.offsets, plan.value, base.ms, row);
      rows := rows + [row];
      if !finished {
        died := true;
        break;
      }
      RunOneMore(steps, plan.value, ran);
      steps := steps + [ran];
      i := i + 1;
    }
    return Report(from, plan, steps, |plan.value| - |steps|, |steps| == |plan.value|), died, rows;
  }

  // ---- requests one after the other

  /** A request that was not cut off, with the instant the next one starts from, is a post of the plan. */
  lemma ReportIsPost(z: Zone, r: Report, target: int, next: int, posts: seq<Post>)
    requires r.plan == Plan(z, r.from, target) && r.plan.Ok? && FollowsPlan(r.steps, r.plan.value)
    requires r.steps != [] && r.from < target && r.steps[|r.steps| - 1].at <= next
    requires Posts(z, next, target, posts)
    ensures Posts(z, r.from, target, [Post(|r.steps|, next)] + posts)
  {
    hide Plan;
    assert ([Post(|r.steps|, next)] + posts)[1..] == posts;
  }

  /**
   * Two requests to one target on one instance: the first is a post, and the second plans exactly what it left
   * if and only if it ended its plan, or the second finds the clock still before the target and on the date of
   * the first one's last step, or only the target was left.
   */
  method PostAgain(z: Zone, clock: OffsetClock, db: ClockTable, base: BaseClock, target: int)
    returns (first: Report, died: bool, second: Report)
    requires ValidZone(z)
    modifies clock, db, base
    ensures !died && first.plan.Ok? && first.steps != [] ==>
      var p, ran := first.plan.value, |first.steps|;
      && ran <= |p|
      && Posts(z, first.from, target, [Post(ran, second.from)])
      && (second.plan == Ok(p[ran..]) <==>
            first.complete || (second.from < target && (z.dateOf(second.from) == p[ran - 1].date || ran == |p| - 1)))
  {
    hide FollowsPlan, OwnRows, Plan, ValidZone, Posts, Visited, StoppedInPlace;
    ghost var rows;
    first, died, rows := Advance(z, clock, db, base, target);
    var diedAgain;
    second, diedAgain, rows := Advance(z, clock, db, base, target);
    if !died && first.plan.Ok? && first.steps != [] {
      StepsWithin(first);
      PlannedAhead(z, first.from, target);
      NoPosts(z, second.from, target);
      ReportIsPost(z, first, target, second.from, []);
      var posts := [Post(|first.steps|, second.from)];
      assert posts + [] == posts;
      PostsRunThePlan(z, first.from, target, posts);
      OneStopped(z, first.from, target, posts[0]);
      OneVisited(z, first.from, target, posts[0]);
    }
  }

  lemma StepsWithin(r: Report)
    requires r.plan.Ok? && FollowsPlan(r.steps, r.plan.value)
    ensures |r.steps| <= |r.plan.value|
  {
  }

  lemma OneStopped(z: Zone, now: int, to: int, post: Post)
    requires Posts(z, now, to, [post])
    ensures var p := Plan(z, now, to);
            && p.Ok? && 1 <= post.ran <= |p.value|
            && (StoppedInPlace(z, now, to, [post]) <==>
                  (post.ran < |p.value| ==> post.after < to && (z.dateOf(post.after) == p.value[post.ran - 1].date || post.ran == |p.value| - 1)))
  {
    hide Plan;
    assert [post][1..] == [];
  }

  lemma PlannedAhead(z: Zone, from: int, to: int)
    ensures Plan(z, from, to).Ok? && Plan(z, from, to).value != [] ==> from < to
  {
  }

  lemma NoPosts(z: Zone, now: int, to: int)
    ensures Posts(z, now, to, [])
  {
  }

  lemma OneVisited(z: Zone, now: int, to: int, post: Post)
    requires Posts(z, now, to, [post]) && Plan(z, now, to).Ok? && post.ran <= |Plan(z, now, to).value|
    ensures Visited(z, now, to, [post]) == Plan(z, now, to).value[..post.ran]
  {
    hide Plan;
    assert [post][1..] == [];
  }

  /**
   * An advance that may die anywhere, and another to the same target by a process that starts from the newest
   * row.  If that row is not below the advance's own newest one, the second plans exactly the steps whose passes
   * did not finish if and only if no row was left open and the clock has not drifted to a later date; a step
   * whose row was left open is never planned again, so its passes never run.
   */
  method DieAndResume(z: Zone, clock: OffsetClock, db: ClockTable, base: BaseClock, target: int)
    returns (first: Report, second: Report, ghost rows: seq<nat>, ghost table: seq<int>)
    requires ValidZone(z)
    modifies clock, db, base
    ensures first.plan == Plan(z, first.from, target) && second.plan == Plan(z, second.from, target)
    ensures first.plan.Ok? ==> OwnRows(rows, table, first.plan.value, second.from - Last(table)) && |first.steps| <= |rows| <= |first.steps| + 1
    ensures first.plan.Ok? && first.from < target && first.from <= second.from && (rows != [] ==> OffsetAt(table, rows[|rows| - 1]) <= Last(table)) ==>
      var p, swept := first.plan.value, |first.steps|;
      && swept <= |p|
      && (second.plan == Ok(p[swept..]) <==>
            && |rows| == swept
            && (swept == |p| || (second.from < target && (z.dateOf(second.from) == DateAfterSteps(z, first.from, p, swept) || swept == |p| - 1))))
      && (|rows| == swept + 1 ==> swept < |p| && second.plan.Ok? && p[swept] !in second.plan.value)
  {
    hide FollowsPlan, Plan, ValidZone, DateAfterSteps;
    var died;
    first, died, rows := Advance(z, clock, db, base, target);
    table := db.offsets;
    ghost var baseNow := base.ms;
    var restarted := LoadClock(db);
    ghost var unread;
    second, died, unread := Advance(z, restarted, db, base, target);
    if first.plan.Ok? {
      OwnRowsLater(rows, table, first.plan.value, baseNow, table, second.from - Last(table));
      if first.from < target && first.from <= second.from && (rows != [] ==> OffsetAt(table, rows[|rows| - 1]) <= Last(table)) {
        ReplanExact(z, first.from, second.from, target, |first.steps|, |rows|);
        if |rows| == |first.steps| + 1 {
          OpenStepLost(z, first.from, second.from, target, |first.steps|);
        }
      }
    }
  }
}
