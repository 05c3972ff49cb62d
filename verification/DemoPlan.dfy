/**
 * The planner of a demo-clock advance (src/runtime/demo-clock.ts:155-167) and what resuming it means.
 * Instants are milliseconds, civil dates are day numbers; of the zone library the proofs use only that
 * the date never goes back as time goes on, and that noon of a date falls on that date.
 */
module DemoPlan {
  import opened Basics

  datatype Zone = Zone(dateOf: int -> int, noon: int -> int)

  ghost predicate ValidZone(z: Zone) {
    && (forall a, b :: a <= b ==> z.dateOf(a) <= z.dateOf(b))
    && (forall d :: z.dateOf(z.noon(d)) == d)
  }

  datatype Kind = Day | Target

  datatype Planned = Planned(at: int, date: int, kind: Kind)

  datatype PlanError = TooManyDays(days: int)

  const MAX_ADVANCE_DAYS := 400

  /** Noon of the `count` days after `date`. */
  function DaySteps(z: Zone, date: int, count: nat): (steps: seq<Planned>)
    ensures |steps| == count
    ensures forall i | 0 <= i < count :: steps[i] == Planned(z.noon(date + 1 + i), date + 1 + i, Day)
  {
    seq(count, i => Planned(z.noon(date + 1 + i), date + 1 + i, Day))
  }

  /** One step for every date strictly between, then the target itself; none when the target is not ahead. */
  function Plan(z: Zone, from: int, to: int): Result<seq<Planned>, PlanError> {
    if to <= from then Ok([])
    else
      var days := z.dateOf(to) - z.dateOf(from);
      if days > MAX_ADVANCE_DAYS then Err(TooManyDays(days))
      else Ok(DaySteps(z, z.dateOf(from), if days < 1 then 0 else days - 1) + [Planned(to, z.dateOf(to), Target)])
  }

  method PlanSteps(z: Zone, from: int, to: int) returns (r: Result<seq<Planned>, PlanError>)
    ensures r == Plan(z, from, to)
  {
    if to <= from {
      return Ok([]);
    }
    var fromDate, toDate := z.dateOf(from), z.dateOf(to);
    var days := toDate - fromDate;
    if days > MAX_ADVANCE_DAYS {
      return Err(TooManyDays(days));
    }
    var steps: seq<Planned>, i := [], 1;
    while i < days
      invariant i >= 1 && (days >= 1 ==> i <= days) && (days < 1 ==> i == 1)
      invariant steps == DaySteps(z, fromDate, i - 1)
    {
      var date := fromDate + i;
      steps := steps + [Planned(z.noon(date), date, Day)];
      i := i + 1;
    }
    return Ok(steps + [Planned(to, toDate, Target)]);
  }

  /** There is nothing to plan exactly when the target is not ahead, and a plan is refused exactly when its target is more than 400 dates ahead. */
  lemma PlanExact(z: Zone, from: int, to: int)
    requires ValidZone(z)
    ensures Plan(z, from, to) == Ok([]) <==> to <= from
    ensures Plan(z, from, to).Err? <==> z.dateOf(to) - z.dateOf(from) > 400
    ensures Plan(z, from, to).Err? ==> Plan(z, from, to).error == TooManyDays(z.dateOf(to) - z.dateOf(from))
  {
  }

  /** The steps of a plan: in strictly increasing time after `from`, each on its own date, every date between exactly once, the target last. */
  lemma PlanVisits(z: Zone, from: int, to: int)
    requires ValidZone(z) && from < to && Plan(z, from, to).Ok?
    ensures var p := Plan(z, from, to).value;
            var first, last := z.dateOf(from), z.dateOf(to);
            && 1 <= |p| <= MAX_ADVANCE_DAYS
            && p[|p| - 1] == Planned(to, last, Target)
            && (forall i | 0 <= i < |p| - 1 :: p[i].kind == Day && p[i].date == first + 1 + i && p[i].date < last)
            && (forall i | 0 <= i < |p| :: from < p[i].at <= to && z.dateOf(p[i].at) == p[i].date)
            && (forall i, j | 0 <= i < j < |p| :: p[i].at < p[j].at)
            && (forall d | first < d < last :: Planned(z.noon(d), d, Day) in p)
  {
    var p := Plan(z, from, to).value;
    var first, last := z.dateOf(from), z.dateOf(to);
    forall i | 0 <= i < |p| ensures from < p[i].at <= to && z.dateOf(p[i].at) == p[i].date {
      if i < |p| - 1 {
      }
    }
    forall i, j | 0 <= i < j < |p| ensures p[i].at < p[j].at {
    }
    forall d | first < d < last ensures Planned(z.noon(d), d, Day) in p {
      assert p[d - first - 1] == Planned(z.noon(d), d, Day);
    }
  }

  function Min(a: int, b: int): int { if a < b then a else b }

  /**
   * Planning again to the same target from any later instant gives the plan without the days already
   * reached: its first min(dates since `from`, all but the target) steps are dropped, and nothing else changes.
   */
  lemma PlanAgain(z: Zone, from: int, now: int, to: int)
    requires ValidZone(z) && from <= now < to && Plan(z, from, to).Ok?
    ensures var p := Plan(z, from, to).value;
            var k := Min(z.dateOf(now) - z.dateOf(from), |p| - 1);
            0 <= k < |p| && Plan(z, now, to) == Ok(p[k..])
  {
    var p := Plan(z, from, to).value;
    var k := Min(z.dateOf(now) - z.dateOf(from), |p| - 1);
    var q := Plan(z, now, to);
    assert z.dateOf(from) <= z.dateOf(now) <= z.dateOf(to);
    assert q.Ok?;
    assert |q.value| == |p| - k;
    forall i | 0 <= i < |q.value| ensures q.value[i] == p[k..][i] {
    }
    assert q.value == p[k..];
  }

  /**
   * After `ran` steps of an unfinished plan, planning again gives exactly the steps not yet run if and
   * only if the clock is still on the date of the last step run, or only the target was left.  When the
   * clock has drifted past that date, the dates up to its own are never visited.
   */
  lemma ResumeExact(z: Zone, from: int, now: int, to: int, ran: nat)
    requires ValidZone(z) && from < to && Plan(z, from, to).Ok?
    requires 1 <= ran < |Plan(z, from, to).value| && Plan(z, from, to).value[ran - 1].at <= now < to
    ensures var p := Plan(z, from, to).value;
            Plan(z, now, to) == Ok(p[ran..]) <==> z.dateOf(now) == p[ran - 1].date || ran == |p| - 1
  {
    var p := Plan(z, from, to).value;
    PlanVisits(z, from, to);
    PlanAgain(z, from, now, to);
    var k := Min(z.dateOf(now) - z.dateOf(from), |p| - 1);
    assert z.dateOf(p[ran - 1].at) <= z.dateOf(now);
    assert |p[k..]| == |p| - k && |p[ran..]| == |p| - ran;
  }

  /**
   * From the start of day 0 to the start of day 4: one step is run, on day 1, and the clock drifts into day 2
   * before the next request, which goes on with day 3; day 2 is never visited.
   */
  lemma DriftSkipsDay() returns (z: Zone)
    ensures ValidZone(z) && z.noon(1) == 36 && z.dateOf(50) == 2
    ensures Plan(z, 0, 96) == Ok([Planned(36, 1, Day), Planned(60, 2, Day), Planned(84, 3, Day), Planned(96, 4, Target)])
    ensures Plan(z, 50, 96) == Ok([Planned(84, 3, Day), Planned(96, 4, Target)])
  {
    z := Zone(t => t / 24, d => 24 * d + 12);
    var p := [Planned(36, 1, Day), Planned(60, 2, Day), Planned(84, 3, Day), Planned(96, 4, Target)];
    assert DaySteps(z, 0, 3) + [Planned(96, 4, Target)] == p;
    assert z.dateOf(0) == 0 && z.dateOf(96) == 4 && z.dateOf(50) == 2;
    assert DaySteps(z, 2, 1) + [Planned(96, 4, Target)] == p[2..];
  }

  // ---- planning again after a crash

  /** The date the clock was on after the first `swept` steps of a plan from `from`. */
  function DateAfterSteps(z: Zone, from: int, p: seq<Planned>, swept: nat): int
    requires swept <= |p|
  {
    if swept == 0 then z.dateOf(from) else p[swept - 1].date
  }

  /**
   * An advance is cut off with the passes of `swept` steps finished and the rows of `written` steps in the
   * table, at most one more.  Planning again gives exactly the steps whose passes did not finish if and only
   * if no row was left open and the clock is still on the date of the last finished step, or only the target
   * is left, or nothing is.
   */
  lemma ReplanExact(z: Zone, from: int, now: int, to: int, swept: nat, written: nat)
    requires ValidZone(z) && from < to && Plan(z, from, to).Ok?
    requires swept <= written <= swept + 1 && written <= |Plan(z, from, to).value|
    requires from <= now && (written > 0 ==> Plan(z, from, to).value[written - 1].at <= now)
    ensures var p := Plan(z, from, to).value;
            Plan(z, now, to) == Ok(p[swept..]) <==>
              && written == swept
              && (swept == |p| || (now < to && (z.dateOf(now) == DateAfterSteps(z, from, p, swept) || swept == |p| - 1)))
  {
    hide Plan, ValidZone;
    var p := Plan(z, from, to).value;
    PlanVisits(z, from, to);
    if written == swept + 1 {
      OpenStepLost(z, from, now, to, swept);
      assert p[swept..][0] == p[swept];
    } else if to <= now {
      PlanNothing(z, now, to);
    } else if swept == 0 {
      PlanAgain(z, from, now, to);
      assert p[0..] == p;
      var k := Min(z.dateOf(now) - z.dateOf(from), |p| - 1);
      assert |p[k..]| == |p| - k;
    } else if swept < |p| {
      ResumeExact(z, from, now, to, swept);
    }
  }

  /** Once a step's row is in the table, planning again never contains the step, whether its passes ran or not. */
  lemma OpenStepLost(z: Zone, from: int, now: int, to: int, k: nat)
    requires ValidZone(z) && from < to && Plan(z, from, to).Ok?
    requires k < |Plan(z, from, to).value| && Plan(z, from, to).value[k].at <= now
    ensures Plan(z, now, to).Ok? && Plan(z, from, to).value[k] !in Plan(z, now, to).value
  {
    hide Plan, ValidZone;
    PlanVisits(z, from, to);
    if to <= now {
      PlanNothing(z, now, to);
    } else {
      PlanAgain(z, from, now, to);
      PlanVisits(z, now, to);
    }
  }

  /**
   * From the start of day 0 to the start of day 3: when the row of day 1 is written and its passes are cut off,
   * the next plan begins with day 2, and day 1 is never swept.
   */
  lemma CrashLosesDay() returns (z: Zone)
    ensures ValidZone(z) && z.noon(1) == 36
    ensures Plan(z, 0, 72) == Ok([Planned(36, 1, Day), Planned(60, 2, Day), Planned(72, 3, Target)])
    ensures Plan(z, 36, 72) == Ok([Planned(60, 2, Day), Planned(72, 3, Target)])
  {
    z := Zone(t => t / 24, d => 24 * d + 12);
    assert z.dateOf(0) == 0 && z.dateOf(36) == 1 && z.dateOf(72) == 3;
    assert DaySteps(z, 0, 2) == [Planned(36, 1, Day), Planned(60, 2, Day)];
    assert DaySteps(z, 1, 1) == [Planned(60, 2, Day)];
    assert DaySteps(z, 0, 2) + [Planned(72, 3, Target)] == [Planned(36, 1, Day), Planned(60, 2, Day), Planned(72, 3, Target)];
    assert DaySteps(z, 1, 1) + [Planned(72, 3, Target)] == [Planned(60, 2, Day), Planned(72, 3, Target)];
  }

  // ---- repeated posts to one target

  /** One request: how many of its planned steps it ran, and the instant it left the clock at. */
  datatype Post = Post(ran: nat, after: int)

  /** Requests to one target: each plans from the instant the one before left the clock at, and runs at least one step. */
  ghost predicate Posts(z: Zone, now: int, to: int, posts: seq<Post>)
    decreases |posts|
  {
    posts == [] ||
    var plan := Plan(z, now, to);
    && now < to && plan.Ok?
    && 1 <= posts[0].ran <= |plan.value|
    && plan.value[posts[0].ran - 1].at <= posts[0].after
    && Posts(z, posts[0].after, to, posts[1..])
  }

  /** Each request that its budget stopped left the clock on the date of its last step, or left only the target. */
  ghost predicate StoppedInPlace(z: Zone, now: int, to: int, posts: seq<Post>)
    requires Posts(z, now, to, posts)
    decreases |posts|
  {
    posts == [] ||
    var p, post := Plan(z, now, to).value, posts[0];
    && (post.ran < |p| ==> post.after < to && (z.dateOf(post.after) == p[post.ran - 1].date || post.ran == |p| - 1))
    && StoppedInPlace(z, post.after, to, posts[1..])
  }

  /** All the steps the requests ran, one after the other. */
  ghost function Visited(z: Zone, now: int, to: int, posts: seq<Post>): seq<Planned>
    requires Posts(z, now, to, posts)
    decreases |posts|
  {
    if posts == [] then []
    else Plan(z, now, to).value[..posts[0].ran] + Visited(z, posts[0].after, to, posts[1..])
  }

  ghost function ClockAfter(now: int, posts: seq<Post>): int {
    if posts == [] then now else posts[|posts| - 1].after
  }

  /** Together the requests run the first steps of the one plan, and what is left to plan is the rest of it. */
  ghost predicate RunThePlan(z: Zone, now: int, to: int, posts: seq<Post>)
    requires Posts(z, now, to, posts) && Plan(z, now, to).Ok?
  {
    var p, v := Plan(z, now, to).value, Visited(z, now, to, posts);
    |v| <= |p| && v == p[..|v|] && Plan(z, ClockAfter(now, posts), to) == Ok(p[|v|..])
  }

  /**
   * Splitting an advance into requests changes nothing exactly when each request that its budget stopped left
   * the clock on the date of its last step, or left only the target.  Every request runs at least one step.
   */
  lemma {:induction false} PostsRunThePlan(z: Zone, now: int, to: int, posts: seq<Post>)
    requires ValidZone(z) && Posts(z, now, to, posts) && now < to && Plan(z, now, to).Ok?
    ensures RunThePlan(z, now, to, posts) <==> StoppedInPlace(z, now, to, posts)
    ensures |posts| <= |Visited(z, now, to, posts)|
    decreases |posts|
  {
    hide Plan, ValidZone, Posts, Visited, StoppedInPlace, RunThePlan;
    PostsUnfold(z, now, to, posts);
    if posts == [] {
      NoneRun(z, now, to);
    } else {
      var post, rest := posts[0], posts[1..];
      PostsUnfold(z, post.after, to, rest);
      if to <= post.after {
        PlanNothing(z, post.after, to);
        LastPost(z, now, to, posts);
      } else {
        PlanVisits(z, now, to);
        PlanAgain(z, now, post.after, to);
        PostsRunThePlan(z, post.after, to, rest);
        FirstPost(z, now, to, posts);
      }
    }
  }

  lemma NoneRun(z: Zone, now: int, to: int)
    requires Plan(z, now, to).Ok?
    ensures Posts(z, now, to, []) && RunThePlan(z, now, to, []) && StoppedInPlace(z, now, to, [])
  {
    hide Plan;
    var p := Plan(z, now, to).value;
    assert p[..0] == [] && p[0..] == p;
  }

  /** Nothing can follow a request that reaches the target: it ran the plan to its end, or what it left is lost. */
  lemma LastPost(z: Zone, now: int, to: int, posts: seq<Post>)
    requires Posts(z, now, to, posts) && Plan(z, now, to).Ok? && posts != []
    requires to <= posts[0].after && Plan(z, posts[0].after, to) == Ok([])
    ensures RunThePlan(z, now, to, posts) <==> StoppedInPlace(z, now, to, posts)
  {
    hide Plan;
    var p, ran := Plan(z, now, to).value, posts[0].ran;
    assert posts[1..] == [];
    assert Visited(z, now, to, posts) == p[..ran];
    assert |p[ran..]| == |p| - ran;
  }

  /** After a request that leaves the clock before the target: it stopped in place, or the next plan skips a date. */
  lemma FirstPost(z: Zone, now: int, to: int, posts: seq<Post>)
    requires ValidZone(z) && Posts(z, now, to, posts) && Plan(z, now, to).Ok? && posts != [] && now < to
    requires posts[0].after < to && Posts(z, posts[0].after, to, posts[1..]) && Plan(z, posts[0].after, to).Ok?
    requires RunThePlan(z, posts[0].after, to, posts[1..]) <==> StoppedInPlace(z, posts[0].after, to, posts[1..])
    ensures RunThePlan(z, now, to, posts) <==> StoppedInPlace(z, now, to, posts)
  {
    hide Plan, Posts, Visited, ValidZone, StoppedInPlace;
    var p, post, rest := Plan(z, now, to).value, posts[0], posts[1..];
    PostsUnfold(z, now, to, posts);
    PostsUnfold(z, post.after, to, rest);
    StoppedUnfold(z, now, to, posts);
    PlanVisits(z, now, to);
    ResumeExact(z, now, post.after, to, post.ran);
    PlanAgain(z, now, post.after, to);
    var q, w := Plan(z, post.after, to).value, Visited(z, post.after, to, rest);
    if q == p[post.ran..] {
      TwoParts(p, post.ran, w);
    } else if rest != [] {
      var k := Min(z.dateOf(post.after) - z.dateOf(now), |p| - 1);
      assert w[0] == q[0] == p[k];
      SkippedDate(p, k, post.ran, w);
    } else {
      assert p[..post.ran] + w == p[..post.ran];
    }
  }

  lemma StoppedUnfold(z: Zone, now: int, to: int, posts: seq<Post>)
    requires Posts(z, now, to, posts) && posts != []
    ensures Plan(z, now, to).Ok? && 1 <= posts[0].ran <= |Plan(z, now, to).value| && Posts(z, posts[0].after, to, posts[1..])
    ensures var p, post := Plan(z, now, to).value, posts[0];
            StoppedInPlace(z, now, to, posts) <==>
              && (post.ran < |p| ==> post.after < to && (z.dateOf(post.after) == p[post.ran - 1].date || post.ran == |p| - 1))
              && StoppedInPlace(z, post.after, to, posts[1..])
  {
    hide Plan;
  }

  /** Steps that go on with another date than the next are no beginning of the plan. */
  lemma SkippedDate(p: seq<Planned>, k: nat, ran: nat, w: seq<Planned>)
    requires ran <= |p| && k < |p| && k != ran && w != [] && w[0] == p[k]
    requires forall i, j | 0 <= i < j < |p| :: p[i].at < p[j].at
    ensures var v := p[..ran] + w; !(|v| <= |p| && v == p[..|v|])
  {
    var v := p[..ran] + w;
    assert v[ran] == p[k];
    if |v| <= |p| {
      assert p[k].at != p[ran].at;
      assert p[..|v|][ran] != v[ran];
    }
  }

  lemma PostsUnfold(z: Zone, now: int, to: int, posts: seq<Post>)
    requires Posts(z, now, to, posts)
    ensures posts == [] ==> Visited(z, now, to, posts) == []
    ensures posts != [] ==>
      var plan, post := Plan(z, now, to), posts[0];
      && now < to && plan.Ok? && 1 <= post.ran <= |plan.value|
      && plan.value[post.ran - 1].at <= post.after
      && Posts(z, post.after, to, posts[1..])
      && Visited(z, now, to, posts) == plan.value[..post.ran] + Visited(z, post.after, to, posts[1..])
      && ClockAfter(now, posts) == ClockAfter(post.after, posts[1..])
  {
    hide Plan;
  }

  lemma TwoParts(p: seq<Planned>, k: nat, w: seq<Planned>)
    requires k <= |p|
    ensures var q, v := p[k..], p[..k] + w;
            && (|w| <= |q| && w == q[..|w|] <==> |v| <= |p| && v == p[..|v|])
            && (|w| <= |q| ==> q[|w|..] == p[|v|..])
  {
    var q, v := p[k..], p[..k] + w;
    if |w| <= |q| {
      assert p[..|v|] == p[..k] + q[..|w|];
      if v == p[..|v|] { assert w == v[k..] == q[..|w|]; }
    }
  }

  lemma PlanNothing(z: Zone, now: int, to: int)
    requires to <= now
    ensures Plan(z, now, to) == Ok([])
  {
  }
}
