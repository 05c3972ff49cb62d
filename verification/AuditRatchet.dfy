/**
 * The audit ratchet (tools/audit.py:228-280): a committed baseline of how many units are built, and the
 * rule under which it may be rewritten.
 */
module AuditRatchet {
  import opened Basics

  datatype Kind = Tids | Tables | Timers | Notices | Tools | Figures

  /** What the ratchet compares: each kind, and all of them together. */
  datatype Unit = Of(kind: Kind) | Units

  const UNITS := [Of(Tids), Of(Tables), Of(Timers), Of(Notices), Of(Tools), Of(Figures), Units]

  /** A valid retired row; dates compare as they stand. */
  datatype Row = Row(unitId: string, kind: Kind, date: int)

  /** What one run of the audit finds: the units built, the processes at 100%, the valid retired rows, and how many errors their file has. */
  datatype Measure = Measure(built: Kind -> nat, done: set<string>, rows: set<Row>, rowErrors: nat, today: int)

  /** A baseline without `asOf` predates the retired rows; one may lack a total. */
  datatype Baseline = Baseline(asOf: Option<int>, totals: map<Unit, nat>, done: set<string>)

  function SumOver(f: Kind -> nat): nat { f(Tids) + f(Tables) + f(Timers) + f(Notices) + f(Tools) + f(Figures) }

  function Total(m: Measure, u: Unit): nat {
    match u
    case Of(k) => m.built(k)
    case Units => SumOver(m.built)
  }

  function Totals(m: Measure): map<Unit, nat> { map u | u in UNITS :: Total(m, u) }

  predicate After(r: Row, asOf: Option<int>) { asOf.None? || r.date > asOf.value }

  function AllowKind(m: Measure, asOf: Option<int>, k: Kind): nat { |set r | r in m.rows && r.kind == k && After(r, asOf)| }

  /** How far a total may fall: the retired rows of its kind dated after the previous baseline. */
  function Allow(m: Measure, asOf: Option<int>, u: Unit): nat {
    match u
    case Of(k) => AllowKind(m, asOf, k)
    case Units => SumOver(k => AllowKind(m, asOf, k))
  }

  function AsOf(b: Option<Baseline>): Option<int> { if b.Some? then b.value.asOf else None }

  function DoneOf(b: Option<Baseline>): set<string> { if b.Some? then b.value.done else {} }

  /** How far a total would fall from the baseline, when the baseline has it. */
  function Fall(b: Option<Baseline>, m: Measure, u: Unit): nat {
    if b.Some? && u in b.value.totals && Total(m, u) < b.value.totals[u] then b.value.totals[u] - Total(m, u) else 0
  }

  predicate Accepted(b: Option<Baseline>, m: Measure) {
    m.rowErrors == 0 && forall u | u in UNITS :: Fall(b, m, u) <= Allow(m, AsOf(b), u)
  }

  function Rewritten(b: Option<Baseline>, m: Measure): Baseline { Baseline(Some(m.today), Totals(m), DoneOf(b) + m.done) }

  // ---- the script's two modes over the stored baseline

  datatype AuditError = RowsInvalid | NoBaseline | Fell(u: Unit) | NotDone(process: string)

  class Ratchet {
    var baseline: Option<Baseline>

    constructor (baseline: Option<Baseline>)
      ensures this.baseline == baseline
    {
      this.baseline := baseline;
    }

    /** `--baseline`: refused with its reasons, or written. */
    method RewriteBaseline(m: Measure) returns (refused: seq<AuditError>)
      modifies this
      ensures (refused == []) == Accepted(old(baseline), m)
      ensures RowsInvalid in refused <==> m.rowErrors > 0
      ensures forall u :: Fell(u) in refused <==>
                && old(baseline).Some? && u in old(baseline).value.totals
                && old(baseline).value.totals[u] > Total(m, u) + |Explaining(m.rows, u, old(baseline).value.asOf)|
      ensures baseline == if refused == [] then Some(Rewritten(old(baseline), m)) else old(baseline)
    {
      hide Fall, Total, Allow, Explaining, UNITS, Rewritten;
      refused := if m.rowErrors > 0 then [RowsInvalid] else [];
      for i := 0 to |UNITS|
        invariant forall e :: e in refused <==> match e
                    case RowsInvalid => m.rowErrors > 0
                    case NoBaseline => false
                    case Fell(u) => u in UNITS[..i] && Fall(baseline, m, u) > Allow(m, AsOf(baseline), u)
                    case NotDone(_) => false
        invariant baseline == old(baseline)
      {
        if Fall(baseline, m, UNITS[i]) > Allow(m, AsOf(baseline), UNITS[i]) {
          refused := refused + [Fell(UNITS[i])];
        }
      }
      AllUnits();
      assert UNITS[..|UNITS|] == UNITS;
      assert forall u :: Fell(u) in refused <==> Fall(baseline, m, u) > Allow(m, AsOf(baseline), u);
      forall u
        ensures Fell(u) in refused <==>
                && baseline.Some? && u in baseline.value.totals
                && baseline.value.totals[u] > Total(m, u) + |Explaining(m.rows, u, baseline.value.asOf)|
      {
        AllowIs(m, AsOf(baseline), u);
        FallsAbove(baseline, m, Allow(m, AsOf(baseline), u));
      }
      assert RowsInvalid in refused <==> m.rowErrors > 0;
      if refused == [] {
        forall u ensures Fall(baseline, m, u) <= Allow(m, AsOf(baseline), u) { assert Fell(u) !in refused; }
      }
      assert refused != [] ==> refused[0] in refused;
      if refused == [] {
        baseline := Some(Rewritten(baseline, m));
      }
    }

    /** `--check`: exactly the errors of the tree as it stands against the stored baseline. */
    method Check(m: Measure) returns (errs: seq<AuditError>)
      ensures (errs == []) == Passes(baseline, m)
      ensures RowsInvalid in errs <==> m.rowErrors > 0
      ensures NoBaseline in errs <==> baseline.None?
      ensures forall u :: Fell(u) in errs <==> baseline.Some? && u in baseline.value.totals && baseline.value.totals[u] > Total(m, u)
      ensures forall p :: NotDone(p) in errs <==> baseline.Some? && p in baseline.value.done && p !in m.done
    {
      errs := if m.rowErrors > 0 then [RowsInvalid] else [];
      if baseline.None? {
        return errs + [NoBaseline];
      }
      var b := baseline.value;
      hide Fall, Total, UNITS;
      for i := 0 to |UNITS|
        invariant forall e :: e in errs <==> match e
                    case RowsInvalid => m.rowErrors > 0
                    case NoBaseline => false
                    case Fell(u) => u in UNITS[..i] && Fall(baseline, m, u) > 0
                    case NotDone(_) => false
      {
        if Fall(baseline, m, UNITS[i]) > 0 {
          errs := errs + [Fell(UNITS[i])];
        }
      }
      AllUnits();
      assert UNITS[..|UNITS|] == UNITS;
      var todo := b.done;
      while todo != {}
        invariant todo <= b.done
        invariant forall e :: e in errs <==> match e
                    case RowsInvalid => m.rowErrors > 0
                    case NoBaseline => false
                    case Fell(u) => Fall(baseline, m, u) > 0
                    case NotDone(p) => p in b.done - todo && p !in m.done
        decreases todo
      {
        var pid :| pid in todo;
        if pid !in m.done {
          errs := errs + [NotDone(pid)];
        }
        todo := todo - {pid};
      }
      FallsAbove(baseline, m, 0);
      assert RowsInvalid in errs <==> m.rowErrors > 0;
      if errs == [] {
        forall u ensures Fall(baseline, m, u) == 0 { assert Fell(u) !in errs; }
        forall p | p in b.done ensures p in m.done { assert NotDone(p) !in errs; }
      }
      assert errs != [] ==> errs[0] in errs;
      assert forall u :: Fell(u) in errs <==> Fall(baseline, m, u) > 0;
      assert forall p :: NotDone(p) in errs <==> p in b.done && p !in m.done;
    }
  }

  /** A total falls by more than `k` exactly when the baseline has it and it is above what is built now and `k` more. */
  lemma FallsAbove(b: Option<Baseline>, m: Measure, k: nat)
    ensures forall u :: Fall(b, m, u) > k <==> b.Some? && u in b.value.totals && b.value.totals[u] > Total(m, u) + k
  {
    hide Total;
  }

  lemma AllUnits()
    ensures forall u :: u in UNITS
  {
    forall u ensures u in UNITS {
      match u
      case Units => assert UNITS[6] == u;
      case Of(k) => match k
        case Tids => assert UNITS[0] == u;
        case Tables => assert UNITS[1] == u;
        case Timers => assert UNITS[2] == u;
        case Notices => assert UNITS[3] == u;
        case Tools => assert UNITS[4] == u;
        case Figures => assert UNITS[5] == u;
    }
  }

  /** No total has fallen, and every process marked done still is. */
  predicate Passes(b: Option<Baseline>, m: Measure) {
    m.rowErrors == 0 && b.Some? && (forall u | u in UNITS :: Fall(b, m, u) == 0) && b.value.done <= m.done
  }

  // ---- runs of accepted rewrites

  function Stored(b: Option<Baseline>, ms: seq<Measure>): Option<Baseline> {
    if ms == [] then b else Some(Rewritten(Stored(b, ms[..|ms| - 1]), ms[|ms| - 1]))
  }

  predicate AllAccepted(b: Option<Baseline>, ms: seq<Measure>) {
    ms != [] ==> AllAccepted(b, ms[..|ms| - 1]) && Accepted(Stored(b, ms[..|ms| - 1]), ms[|ms| - 1])
  }

  /** Everything a total has lost over the run; what it gains back between does not count against it. */
  function Falls(b: Option<Baseline>, ms: seq<Measure>, u: Unit): nat {
    if ms == [] then 0 else Falls(b, ms[..|ms| - 1], u) + Fall(Stored(b, ms[..|ms| - 1]), ms[|ms| - 1], u)
  }

  /** Every row that was ever listed. */
  function Ever(ms: seq<Measure>): set<Row> {
    if ms == [] then {} else Ever(ms[..|ms| - 1]) + ms[|ms| - 1].rows
  }

  predicate Explains(r: Row, u: Unit) { u == Units || u == Of(r.kind) }

  /** The rows that can explain a fall of `u` from a baseline of `asOf`. */
  function Explaining(rows: set<Row>, u: Unit, asOf: Option<int>): set<Row> {
    set r | r in rows && Explains(r, u) && After(r, asOf)
  }

  /** Days do not go back, and no row is dated after the rewrite that counts it. */
  ghost predicate InTime(b: Option<Baseline>, ms: seq<Measure>) {
    ms != [] ==>
      var m, asOf := ms[|ms| - 1], AsOf(Stored(b, ms[..|ms| - 1]));
      && InTime(b, ms[..|ms| - 1])
      && (asOf.Some? ==> asOf.value <= m.today)
      && forall r | r in m.rows :: r.date <= m.today
  }

  function OfKind(rows: set<Row>, k: Kind): set<Row> { set r | r in rows && r.kind == k }

  lemma OneLess(rows: set<Row>, r: Row, k: Kind)
    requires r in rows
    ensures |OfKind(rows, k)| == |OfKind(rows - {r}, k)| + if r.kind == k then 1 else 0
  {
    assert OfKind(rows - {r}, k) == OfKind(rows, k) - {r};
  }

  lemma {:induction false} KindsAddUp(rows: set<Row>)
    ensures |rows| == SumOver(k => |OfKind(rows, k)|)
    decreases rows
  {
    hide OfKind;
    if rows == {} {
      forall k ensures OfKind({}, k) == {} { NoneOfKind(k); }
    } else {
      var r :| r in rows;
      KindsAddUp(rows - {r});
      OneLess(rows, r, Tids); OneLess(rows, r, Tables); OneLess(rows, r, Timers);
      OneLess(rows, r, Notices); OneLess(rows, r, Tools); OneLess(rows, r, Figures);
    }
  }

  lemma NoneOfKind(k: Kind)
    ensures OfKind({}, k) == {}
  {
  }

  lemma AllowOfKind(m: Measure, asOf: Option<int>, k: Kind)
    ensures AllowKind(m, asOf, k) == |OfKind(Explaining(m.rows, Units, asOf), k)| == |Explaining(m.rows, Of(k), asOf)|
  {
    hide After;
    var counted := set r | r in m.rows && r.kind == k && After(r, asOf);
    assert OfKind(Explaining(m.rows, Units, asOf), k) == counted;
    assert Explaining(m.rows, Of(k), asOf) == counted;
  }

  /** The units are counted kind by kind; together they are all the rows. */
  lemma AllowIs(m: Measure, asOf: Option<int>, u: Unit)
    ensures Allow(m, asOf, u) == |Explaining(m.rows, u, asOf)|
  {
    hide AllowKind, Explaining, OfKind;
    forall k ensures AllowKind(m, asOf, k) == |OfKind(Explaining(m.rows, Units, asOf), k)| == |Explaining(m.rows, Of(k), asOf)| {
      AllowOfKind(m, asOf, k);
    }
    KindsAddUp(Explaining(m.rows, Units, asOf));
  }

  /** After the first rewrite, every row ever listed is dated no later than the stored baseline. */
  lemma {:induction false} RowsDated(b: Option<Baseline>, ms: seq<Measure>)
    requires InTime(b, ms)
    ensures ms != [] ==> AsOf(Stored(b, ms)).Some? && forall r | r in Ever(ms) :: r.date <= AsOf(Stored(b, ms)).value
    ensures ms != [] && AsOf(b).Some? ==> AsOf(b).value <= AsOf(Stored(b, ms)).value
  {
    if ms != [] { RowsDated(b, ms[..|ms| - 1]); }
  }

  lemma {:induction false} SubsetCard<T>(a: set<T>, b: set<T>)
    requires a <= b
    ensures |a| <= |b|
  {
    assert b == a + (b - a);
  }

  /**
   * Over any run of accepted rewrites with days that do not go back and no row dated after the rewrite that
   * counts it, a total loses at most as many units as there are retired rows of its kind, dated after the
   * first baseline: each row explains a fall only once, however many rewrites count the row's kind.
   */
  lemma {:induction false} FallsExplained(b: Option<Baseline>, ms: seq<Measure>, u: Unit)
    requires AllAccepted(b, ms) && InTime(b, ms) && u in UNITS
    ensures Falls(b, ms, u) <= |Explaining(Ever(ms), u, AsOf(b))|
  {
    hide Fall, Allow, Explains, UNITS;
    if ms != [] {
      var init, m := ms[..|ms| - 1], ms[|ms| - 1];
      FallsExplained(b, init, u);
      RowsDated(b, init);
      var at := AsOf(Stored(b, init));
      AllowIs(m, at, u);
      var before, now := Explaining(Ever(init), u, AsOf(b)), Explaining(m.rows, u, at);
      assert before * now == {};
      SubsetCard(before + now, Explaining(Ever(ms), u, AsOf(b)));
    }
  }

  /** A row counted at a rewrite can be counted again at the next exactly when it is dated after the rewrite. */
  lemma CountedOnceExact(m: Measure, u: Unit, asOf: Option<int>)
    requires asOf.Some? ==> asOf.value <= m.today
    ensures Explaining(m.rows, u, asOf) !! Explaining(m.rows, u, Some(m.today)) <==>
            forall r | r in Explaining(m.rows, u, asOf) :: r.date <= m.today
  {
    forall r | r in Explaining(m.rows, u, asOf) && r.date > m.today ensures r in Explaining(m.rows, u, Some(m.today)) {
    }
  }

  /** The same tree with one unit of a kind fewer, on a later day. */
  function OneFewer(m: Measure, k: Kind, today: int): Measure
    requires m.built(k) > 0
  {
    m.(built := (x: Kind) => if x == k then m.built(k) - 1 else m.built(x), today := today)
  }

  /**
   * After an accepted rewrite, losing one more unit of a kind with no new row is accepted exactly when some
   * row of the kind is dated after the rewrite: exactly those rows explain a second fall.
   */
  lemma FallsAgainExact(b: Option<Baseline>, m: Measure, k: Kind, today: int)
    requires Accepted(b, m) && m.built(k) > 0
    ensures Accepted(Some(Rewritten(b, m)), OneFewer(m, k, today)) <==> exists r | r in m.rows :: r.kind == k && r.date > m.today
  {
    hide Allow, Explaining, Fall;
    var next, base := OneFewer(m, k, today), Rewritten(b, m);
    AllowIs(next, Some(m.today), Of(k));
    AllowIs(next, Some(m.today), Units);
    OneFewerFalls(b, m, k, today);
    SomeExplain(m.rows, k, m.today);
    assert Of(k) in UNITS && Units in UNITS;
  }

  lemma OneFewerFalls(b: Option<Baseline>, m: Measure, k: Kind, today: int)
    requires m.built(k) > 0
    ensures forall u | u in UNITS :: Fall(Some(Rewritten(b, m)), OneFewer(m, k, today), u) == if u == Of(k) || u == Units then 1 else 0
  {
    hide Total, OneFewer;
    OneFewerTotals(m, k, today);
    forall u | u in UNITS ensures u in Totals(m) && Totals(m)[u] == Total(m, u) {
    }
  }

  lemma OneFewerTotals(m: Measure, k: Kind, today: int)
    requires m.built(k) > 0
    ensures forall u | u in UNITS :: Total(OneFewer(m, k, today), u) == Total(m, u) - if u == Of(k) || u == Units then 1 else 0
  {
  }

  lemma SomeExplain(rows: set<Row>, k: Kind, today: int)
    ensures |Explaining(rows, Of(k), Some(today))| > 0 <==> exists r | r in rows :: r.kind == k && r.date > today
    ensures (exists r | r in rows :: r.kind == k && r.date > today) ==> |Explaining(rows, Units, Some(today))| > 0
  {
    if r :| r in rows && r.kind == k && r.date > today {
      assert r in Explaining(rows, Of(k), Some(today)) && r in Explaining(rows, Units, Some(today));
    }
    if |Explaining(rows, Of(k), Some(today))| > 0 {
      var r :| r in Explaining(rows, Of(k), Some(today));
    }
  }

  function OnlyTids(n: nat): Kind -> nat { k => if k == Tids then n else 0 }

  /** One test fewer than the baseline, explained by the one row there is. */
  lemma OneDown(b: Baseline, m: Measure, row: Row, n: nat)
    requires forall u | u in UNITS :: u in b.totals && b.totals[u] == if u == Of(Tids) || u == Units then n + 1 else 0
    requires m.built == OnlyTids(n) && m.rows == {row} && m.rowErrors == 0 && row.kind == Tids && After(row, b.asOf)
    ensures Accepted(Some(b), m) && Fall(Some(b), m, Of(Tids)) == 1
    ensures forall u | u in UNITS :: u in Totals(m) && Totals(m)[u] == if u == Of(Tids) || u == Units then n else 0
  {
    hide Allow, After;
    forall u | u in UNITS ensures Total(m, u) == if u == Of(Tids) || u == Units then n else 0 {
    }
    forall u | u == Of(Tids) || u == Units ensures Allow(m, b.asOf, u) == 1 {
      AllowIs(m, b.asOf, u);
      assert Explaining(m.rows, u, b.asOf) == {row};
    }
  }

  /** A row dated in the future explains falls again and again: two units are lost to one row. */
  lemma FutureRowExplainsTwice() returns (b: Option<Baseline>, ms: seq<Measure>)
    ensures AllAccepted(b, ms) && |Ever(ms)| == 1 && Falls(b, ms, Of(Tids)) == 2
    ensures AsOf(b) == Some(0) && forall i | 0 <= i < |ms| :: ms[i].today == i + 1
  {
    hide Accepted, Fall, Totals;
    var row := Row("1.1-T1", Tids, 10);
    var first := Baseline(Some(0), map u | u in UNITS :: if u == Of(Tids) || u == Units then 2 else 0, {});
    b := Some(first);
    var m1, m2 := Measure(OnlyTids(1), {}, {row}, 0, 1), Measure(OnlyTids(0), {}, {row}, 0, 2);
    ms := [m1, m2];
    assert ms[..1] == [m1] && [m1][..0] == [];
    OneDown(first, m1, row, 1);
    assert Stored(b, []) == b;
    assert Stored(b, [m1]) == Some(Rewritten(b, m1));
    OneDown(Rewritten(b, m1), m2, row, 0);
    assert AllAccepted(b, [m1]);
    assert Falls(b, [m1], Of(Tids)) == 1;
    assert Ever([m1]) == {row};
    assert Ever(ms) == Ever([m1]) + {row} == {row};
  }

  /** The list of processes marked done never shrinks. */
  lemma {:induction false} DoneNeverShrinks(b: Option<Baseline>, ms: seq<Measure>, more: seq<Measure>)
    ensures DoneOf(Stored(b, ms)) <= DoneOf(Stored(b, ms + more))
    decreases |more|
  {
    if more == [] {
      assert ms + more == ms;
    } else {
      var all := ms + more;
      assert all[..|all| - 1] == ms + more[..|more| - 1];
      DoneNeverShrinks(b, ms, more[..|more| - 1]);
    }
  }

  /**
   * A baseline that was just accepted passes the check of the same tree exactly when every process that was
   * marked done before is still at 100%; the rewrite itself does not look at that, so it can write a
   * baseline that fails at once.
   */
  lemma FreshBaselinePasses(b: Option<Baseline>, m: Measure)
    requires Accepted(b, m)
    ensures Passes(Some(Rewritten(b, m)), m) <==> DoneOf(b) <= m.done
  {
    hide Allow;
  }

  /** A process that was done and no longer is: the rewrite is accepted, and its baseline fails at once. */
  lemma DoneLost() returns (b: Option<Baseline>, m: Measure)
    ensures Accepted(b, m) && !Passes(Some(Rewritten(b, m)), m)
  {
    hide Allow;
    b := Some(Baseline(Some(0), map[], {"1.1"}));
    m := Measure(k => 0, {}, {}, 0, 1);
    FreshBaselinePasses(b, m);
    assert "1.1" in DoneOf(b);
  }

  // ---- what a schedule of rows and days lets the totals lose

  /** One rewrite's retired rows and its day. */
  datatype Entry = Entry(rows: set<Row>, today: int)

  /** The day of the newest baseline after the entries. */
  function DayAfter(asOf: Option<int>, es: seq<Entry>): Option<int> { if es == [] then asOf else Some(es[|es| - 1].today) }

  /** The rows counted at some rewrite. */
  function Counted(asOf: Option<int>, es: seq<Entry>, u: Unit): set<Row> {
    if es == [] then {}
    else Counted(asOf, es[..|es| - 1], u) + Explaining(es[|es| - 1].rows, u, DayAfter(asOf, es[..|es| - 1]))
  }

  /** How many rows the rewrites count, a row once for every rewrite that counts it. */
  function CountedSum(asOf: Option<int>, es: seq<Entry>, u: Unit): nat {
    if es == [] then 0
    else CountedSum(asOf, es[..|es| - 1], u) + |Explaining(es[|es| - 1].rows, u, DayAfter(asOf, es[..|es| - 1]))|
  }

  /** No row is counted at two rewrites. */
  predicate CountedOnce(asOf: Option<int>, es: seq<Entry>, u: Unit) {
    es != [] ==>
      && CountedOnce(asOf, es[..|es| - 1], u)
      && Counted(asOf, es[..|es| - 1], u) !! Explaining(es[|es| - 1].rows, u, DayAfter(asOf, es[..|es| - 1]))
  }

  /** A run with these rows on these days, from a baseline of this day. */
  ghost predicate OnSchedule(b: Option<Baseline>, ms: seq<Measure>, asOf: Option<int>, es: seq<Entry>) {
    && AsOf(b) == asOf && |ms| == |es|
    && forall i | 0 <= i < |es| :: ms[i].rows == es[i].rows && ms[i].today == es[i].today
  }

  lemma OnScheduleInit(b: Option<Baseline>, ms: seq<Measure>, asOf: Option<int>, es: seq<Entry>)
    requires OnSchedule(b, ms, asOf, es)
    ensures AsOf(Stored(b, ms)) == DayAfter(asOf, es)
    ensures es != [] ==> OnSchedule(b, ms[..|ms| - 1], asOf, es[..|es| - 1])
  {
  }

  /** An accepted run loses no more than its rewrites count. */
  lemma {:induction false} FallsCounted(b: Option<Baseline>, ms: seq<Measure>, asOf: Option<int>, es: seq<Entry>, u: Unit)
    requires OnSchedule(b, ms, asOf, es) && AllAccepted(b, ms) && u in UNITS
    ensures Falls(b, ms, u) <= CountedSum(asOf, es, u)
  {
    hide Fall, Allow, Explaining, UNITS, OnSchedule;
    OnScheduleInit(b, ms, asOf, es);
    SameLength(b, ms, asOf, es);
    if es != [] {
      var init, m := ms[..|ms| - 1], ms[|ms| - 1];
      FallsCounted(b, init, asOf, es[..|es| - 1], u);
      OnScheduleInit(b, init, asOf, es[..|es| - 1]);
      AllowIs(m, AsOf(Stored(b, init)), u);
    }
  }

  lemma SameLength(b: Option<Baseline>, ms: seq<Measure>, asOf: Option<int>, es: seq<Entry>)
    requires OnSchedule(b, ms, asOf, es)
    ensures |ms| == |es|
    ensures es != [] ==> ms[|ms| - 1].rows == es[|es| - 1].rows && ms[|ms| - 1].today == es[|es| - 1].today
  {
  }

  /** What the rewrites from the `i`-th on count of a kind. */
  function Rest(asOf: Option<int>, es: seq<Entry>, i: nat, k: Kind): nat
    requires i <= |es|
    decreases |es| - i
  {
    if i == |es| then 0 else |Explaining(es[i].rows, Of(k), DayAfter(asOf, es[..i]))| + Rest(asOf, es, i + 1, k)
  }

  /** A tree that has left exactly what the later rewrites still count. */
  function Spending(asOf: Option<int>, es: seq<Entry>, i: nat): Measure
    requires i < |es|
  {
    Measure((k: Kind) => Rest(asOf, es, i + 1, k), {}, es[i].rows, 0, es[i].today)
  }

  function StartOf(asOf: Option<int>, es: seq<Entry>): Baseline {
    Baseline(asOf, map u | u in UNITS :: match u case Of(k) => Rest(asOf, es, 0, k) case Units => SumOver(k => Rest(asOf, es, 0, k)), {})
  }

  function SpendingRun(asOf: Option<int>, es: seq<Entry>, n: nat): seq<Measure>
    requires n <= |es|
  {
    seq(n, i requires 0 <= i < n => Spending(asOf, es, i))
  }

  /** The totals before the `n`-th rewrite of the run that spends everything. */
  ghost predicate Holds(b: Option<Baseline>, asOf: Option<int>, es: seq<Entry>, n: nat)
    requires n <= |es|
  {
    && b.Some? && b.value.asOf == DayAfter(asOf, es[..n])
    && (forall k: Kind :: Of(k) in b.value.totals && b.value.totals[Of(k)] == Rest(asOf, es, n, k))
    && Units in b.value.totals && b.value.totals[Units] == SumOver(k => Rest(asOf, es, n, k))
  }

  /** Each such rewrite spends all its rows, and is accepted. */
  lemma SpendingStep(b: Option<Baseline>, asOf: Option<int>, es: seq<Entry>, n: nat)
    requires n < |es| && Holds(b, asOf, es, n)
    ensures var m := Spending(asOf, es, n);
            && Accepted(b, m) && Holds(Some(Rewritten(b, m)), asOf, es, n + 1)
            && forall u | u in UNITS :: Fall(b, m, u) == |Explaining(es[n].rows, u, DayAfter(asOf, es[..n]))|
  {
    hide Allow, Explaining;
    var m, at := Spending(asOf, es, n), DayAfter(asOf, es[..n]);
    forall u ensures Allow(m, at, u) == |Explaining(es[n].rows, u, at)| { AllowIs(m, at, u); }
    UnitsAddUp(es[n].rows, at);
    assert es[..n + 1][|es[..n + 1]| - 1] == es[n];
    forall u | u in UNITS ensures u in Totals(m) && Totals(m)[u] == Total(m, u) {}
    EveryKind();
  }

  lemma EveryKind()
    ensures Units in UNITS && forall k: Kind :: Of(k) in UNITS
  {
    assert UNITS[0] == Of(Tids) && UNITS[1] == Of(Tables) && UNITS[2] == Of(Timers);
    assert UNITS[3] == Of(Notices) && UNITS[4] == Of(Tools) && UNITS[5] == Of(Figures) && UNITS[6] == Units;
    forall k: Kind ensures Of(k) in UNITS {
      match k case Tids => case Tables => case Timers => case Notices => case Tools => case Figures =>
    }
  }

  lemma UnitsAddUp(rows: set<Row>, asOf: Option<int>)
    ensures |Explaining(rows, Units, asOf)| == SumOver(k => |Explaining(rows, Of(k), asOf)|)
  {
    hide Explaining, OfKind;
    KindsAddUp(Explaining(rows, Units, asOf));
    forall k: Kind ensures |OfKind(Explaining(rows, Units, asOf), k)| == |Explaining(rows, Of(k), asOf)| {
      AllowOfKind(Measure(x => 0, {}, rows, 0, 0), asOf, k);
    }
  }

  lemma {:induction false} SpendingAccepted(asOf: Option<int>, es: seq<Entry>, n: nat)
    requires n <= |es|
    ensures var b, ms := Some(StartOf(asOf, es)), SpendingRun(asOf, es, n);
            AllAccepted(b, ms) && Holds(Stored(b, ms), asOf, es, n)
    ensures forall u | u in UNITS :: Falls(Some(StartOf(asOf, es)), SpendingRun(asOf, es, n), u) == CountedSum(asOf, es[..n], u)
  {
    hide Explaining, Accepted, Fall, Spending, Rest, UNITS;
    var b, ms := Some(StartOf(asOf, es)), SpendingRun(asOf, es, n);
    if n == 0 {
      SpendingStart(asOf, es);
    } else {
      SpendingAccepted(asOf, es, n - 1);
      assert ms[..n - 1] == SpendingRun(asOf, es, n - 1) && ms[n - 1] == Spending(asOf, es, n - 1);
      assert es[..n][..n - 1] == es[..n - 1] && es[..n][n - 1] == es[n - 1];
      SpendingStep(Stored(b, ms[..n - 1]), asOf, es, n - 1);
    }
  }

  lemma SpendingStart(asOf: Option<int>, es: seq<Entry>)
    ensures Holds(Some(StartOf(asOf, es)), asOf, es, 0)
  {
    hide Rest;
    assert es[..0] == [];
    EveryKind();
  }

  lemma Disjoint<T>(a: set<T>, b: set<T>)
    ensures |a * b| == 0 <==> a !! b
  {
    if a !! b {
      assert a * b == {};
    } else {
      var x :| x in a && x in b;
      assert x in a * b;
    }
  }

  /** Counting rows one rewrite at a time counts them all exactly when none is counted twice. */
  lemma {:induction false} SumExact(asOf: Option<int>, es: seq<Entry>, u: Unit)
    ensures |Counted(asOf, es, u)| <= CountedSum(asOf, es, u)
    ensures |Counted(asOf, es, u)| == CountedSum(asOf, es, u) <==> CountedOnce(asOf, es, u)
  {
    hide Explaining;
    if es != [] {
      var before, now := Counted(asOf, es[..|es| - 1], u), Explaining(es[|es| - 1].rows, u, DayAfter(asOf, es[..|es| - 1]));
      SumExact(asOf, es[..|es| - 1], u);
      assert |before + now| + |before * now| == |before| + |now|;
      assert |before * now| == 0 <==> before !! now by { Disjoint(before, now); }
    }
  }

  /**
   * For any schedule of retired rows and days: every accepted run on it loses at most as many units as there
   * are rows counted exactly when no row is counted at two rewrites.
   */
  lemma ScheduleExact(asOf: Option<int>, es: seq<Entry>, u: Unit)
    requires u in UNITS
    ensures (forall b, ms | OnSchedule(b, ms, asOf, es) && AllAccepted(b, ms) :: Falls(b, ms, u) <= |Counted(asOf, es, u)|)
            <==> CountedOnce(asOf, es, u)
  {
    hide Counted, CountedSum, CountedOnce, UNITS, Falls, AllAccepted, Spending, Rest;
    SumExact(asOf, es, u);
    forall b, ms | OnSchedule(b, ms, asOf, es) && AllAccepted(b, ms) ensures Falls(b, ms, u) <= CountedSum(asOf, es, u) {
      FallsCounted(b, ms, asOf, es, u);
    }
    SpendingAccepted(asOf, es, |es|);
    assert es[..|es|] == es;
    SpendingOnSchedule(asOf, es);
  }

  lemma SpendingOnSchedule(asOf: Option<int>, es: seq<Entry>)
    ensures OnSchedule(Some(StartOf(asOf, es)), SpendingRun(asOf, es, |es|), asOf, es)
  {
    hide Rest;
  }
}
