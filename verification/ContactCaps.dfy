/**
 * The trailing-window contact caps (src/app/evaluator-kit.ts:22-24, src/app/evaluators.ts:256, 259): at most
 * seven counted calls in seven days, and three AI-voice calls to a landline in thirty.
 */
module ContactCaps {
  import opened Basics

  /** A time stamp in milliseconds; a text that does not parse has none, and no comparison with it holds. */
  type Stamp = Option<int>

  const DAY := 86_400_000

  predicate Counts(t: Stamp, days: nat, now: Stamp) {
    t.Some? && now.Some? && now.value - t.value < days * DAY && t.value <= now.value
  }

  /** How many of the stamps lie within `days` before `now`. */
  function Within(log: seq<Stamp>, days: nat, now: Stamp): nat {
    if log == [] then 0 else Within(log[..|log| - 1], days, now) + (if Counts(log[|log| - 1], days, now) then 1 else 0)
  }

  /** A cap: a window in days and the most attempts it may hold. */
  datatype Cap = Cap(days: nat, max: nat)

  const CALLS_7_IN_7 := Cap(7, 7)
  const LANDLINE_AI_3_IN_30 := Cap(30, 3)

  /** The gate for one more attempt at `now`. */
  predicate Open(cap: Cap, log: seq<Stamp>, now: Stamp) {
    Within(log, cap.days, now) + 1 <= cap.max
  }

  // ---- what the caps are for: no window of the cap's length holds more than its attempts

  predicate InWindow(t: Stamp, from: int, length: nat) { t.Some? && from <= t.value < from + length }

  function CountIn(log: seq<Stamp>, from: int, length: nat): nat {
    if log == [] then 0 else CountIn(log[..|log| - 1], from, length) + (if InWindow(log[|log| - 1], from, length) then 1 else 0)
  }

  /** Wherever a window of the cap's length starts, it holds at most the cap's attempts. */
  ghost predicate Capped(cap: Cap, log: seq<Stamp>) {
    forall from :: CountIn(log, from, cap.days * DAY) <= cap.max
  }

  /** Attempts are recorded in time order. */
  ghost predicate Ordered(log: seq<Stamp>) {
    forall i, j | 0 <= i < j < |log| && log[i].Some? && log[j].Some? :: log[i].value <= log[j].value
  }

  /** Every attempt was made while its gate was open. */
  ghost predicate Admitted(cap: Cap, log: seq<Stamp>) {
    forall k | 0 <= k < |log| :: Open(cap, log[..k], log[k])
  }

  lemma Snoc(log: seq<Stamp>, t: Stamp, from: int, length: nat)
    ensures CountIn(log + [t], from, length) == CountIn(log, from, length) + if InWindow(t, from, length) then 1 else 0
  {
    assert (log + [t])[..|log|] == log;
  }

  /** A window that `now` lies in, with no later stamp in the log, is covered by the window the gate looks at. */
  lemma {:induction false} WindowCovered(log: seq<Stamp>, days: nat, from: int, now: int)
    requires forall i | 0 <= i < |log| && log[i].Some? :: log[i].value <= now
    requires from <= now < from + days * DAY
    ensures CountIn(log, from, days * DAY) <= Within(log, days, Some(now))
  {
    if log != [] {
      WindowCovered(log[..|log| - 1], days, from, now);
    }
  }

  /** The gate's own window, as a window of the cap's length. */
  lemma {:induction false} GateWindow(log: seq<Stamp>, days: nat, now: int)
    ensures Within(log, days, Some(now)) == CountIn(log, now - days * DAY + 1, days * DAY)
  {
    if log != [] {
      GateWindow(log[..|log| - 1], days, now);
    }
  }

  /** In a log kept in time order and within its cap, the gate is open exactly when one more attempt keeps it within the cap. */
  lemma OpenExact(cap: Cap, log: seq<Stamp>, now: Stamp)
    requires cap.days > 0 && cap.max > 0
    requires Ordered(log + [now]) && Capped(cap, log)
    ensures Open(cap, log, now) <==> Capped(cap, log + [now])
  {
    hide CountIn, Within;
    var next, w := log + [now], cap.days * DAY;
    if now == None {
      NeverCounted(log, cap.days);
      forall from ensures CountIn(next, from, w) == CountIn(log, from, w) { Snoc(log, now, from, w); }
    } else {
      forall i | 0 <= i < |log| && log[i].Some? ensures log[i].value <= now.value {
        assert next[i] == log[i] && next[|log|] == now;
      }
      GateWindow(log, cap.days, now.value);
      Snoc(log, now, now.value - w + 1, w);
      forall from ensures CountIn(next, from, w) <= CountIn(log, from, w) || CountIn(next, from, w) <= Within(log, cap.days, now) + 1 {
        Snoc(log, now, from, w);
        if from <= now.value < from + w { WindowCovered(log, cap.days, from, now.value); }
      }
      assert CountIn(next, now.value - w + 1, w) == Within(log, cap.days, now) + 1;
    }
  }

  lemma {:induction false} NeverCounted(log: seq<Stamp>, days: nat)
    ensures Within(log, days, None) == 0
  {
    if log != [] { NeverCounted(log[..|log| - 1], days); }
  }

  /**
   * When every attempt is admitted only while its gate is open and attempts are recorded in time order,
   * no window of the cap's length, wherever it starts, ever holds more than the cap's attempts.
   */
  lemma {:induction false} AdmittedIsCapped(cap: Cap, log: seq<Stamp>)
    requires cap.days > 0 && cap.max > 0 && Ordered(log) && Admitted(cap, log)
    ensures Capped(cap, log)
  {
    hide Open, Capped;
    if log == [] {
      NothingCapped(cap);
    } else {
      var init, now := log[..|log| - 1], log[|log| - 1];
      assert log == init + [now];
      forall k | 0 <= k < |init| ensures Open(cap, init[..k], init[k]) {
        assert init[..k] == log[..k] && init[k] == log[k];
      }
      AdmittedIsCapped(cap, init);
      assert Open(cap, log[..|init|], log[|init|]) && log[..|init|] == init;
      OpenExact(cap, init, now);
    }
  }

  lemma NothingCapped(cap: Cap)
    ensures Capped(cap, [])
  {
  }

  /** The places of a log whose stamps lie in the window. */
  function Places(log: seq<Stamp>, from: int, length: nat): set<nat> {
    set i | 0 <= i < |log| && log[i].Some? && from <= log[i].value < from + length
  }

  /** Counting along the log counts its places in the window. */
  lemma {:induction false} CountExact(log: seq<Stamp>, from: int, length: nat)
    ensures CountIn(log, from, length) == |Places(log, from, length)|
  {
    if log != [] {
      var init := log[..|log| - 1];
      CountExact(init, from, length);
      PlacesSnoc(init, log[|init|], from, length);
      assert log == init + [log[|init|]];
      hide Places;
    }
  }

  lemma PlacesSnoc(log: seq<Stamp>, t: Stamp, from: int, length: nat)
    ensures Places(log + [t], from, length) == Places(log, from, length) + if InWindow(t, from, length) then {|log|} else {}
    ensures |log| !in Places(log, from, length)
  {
    forall i | 0 <= i < |log| ensures (log + [t])[i] == log[i] {
    }
  }

  /**
   * The two caps of the rules, in milliseconds: seven calls in any half-open seven days, three AI-voice calls
   * to a landline in any thirty.
   */
  lemma BothCaps(calls: seq<Stamp>, aiCalls: seq<Stamp>, from: int)
    requires Ordered(calls) && Admitted(CALLS_7_IN_7, calls) && Ordered(aiCalls) && Admitted(LANDLINE_AI_3_IN_30, aiCalls)
    ensures |Places(calls, from, 604_800_000)| <= 7 && |Places(aiCalls, from, 2_592_000_000)| <= 3
  {
    hide CountIn, Admitted, Ordered, Places;
    AdmittedIsCapped(CALLS_7_IN_7, calls);
    AdmittedIsCapped(LANDLINE_AI_3_IN_30, aiCalls);
    assert CountIn(calls, from, CALLS_7_IN_7.days * DAY) <= 7 && CountIn(aiCalls, from, LANDLINE_AI_3_IN_30.days * DAY) <= 3;
    CountExact(calls, from, 604_800_000);
    CountExact(aiCalls, from, 2_592_000_000);
  }

  /**
   * The two gates, in milliseconds: each is open exactly when the attempts of the seven or thirty days that end
   * with `now` leave room for one more.
   */
  lemma BothGates(log: seq<Stamp>, now: int)
    ensures Open(CALLS_7_IN_7, log, Some(now)) <==> |Places(log, now - 604_799_999, 604_800_000)| < 7
    ensures Open(LANDLINE_AI_3_IN_30, log, Some(now)) <==> |Places(log, now - 2_591_999_999, 2_592_000_000)| < 3
  {
    hide Places, Within, CountIn;
    GateWindow(log, 7, now);
    GateWindow(log, 30, now);
    assert Within(log, 7, Some(now)) == CountIn(log, now - 604_799_999, 604_800_000);
    assert Within(log, 30, Some(now)) == CountIn(log, now - 2_591_999_999, 2_592_000_000);
    CountExact(log, now - 604_799_999, 604_800_000);
    CountExact(log, now - 2_591_999_999, 2_592_000_000);
  }

  function Repeat(t: Stamp, k: nat): (s: seq<Stamp>)
    ensures |s| == k && forall i | 0 <= i < k :: s[i] == t
  {
    if k == 0 then [] else Repeat(t, k - 1) + [t]
  }

  lemma {:induction false} RepeatCounts(t: int, k: nat, days: nat, now: int, from: int)
    ensures Within(Repeat(Some(t), k), days, Some(now)) == if Counts(Some(t), days, Some(now)) then k else 0
    ensures CountIn(Repeat(Some(t), k), from, days * DAY) == if InWindow(Some(t), from, days * DAY) then k else 0
  {
    if k > 0 {
      assert Repeat(Some(t), k)[..k - 1] == Repeat(Some(t), k - 1);
      RepeatCounts(t, k - 1, days, now, from);
    }
  }

  /**
   * Whatever the order, one more attempt keeps a capped log capped exactly when every window that holds it
   * still has room.
   */
  lemma RoomExact(cap: Cap, log: seq<Stamp>, now: int)
    requires cap.days > 0 && cap.max > 0 && Capped(cap, log)
    ensures Capped(cap, log + [Some(now)]) <==>
            forall from | from <= now < from + cap.days * DAY :: CountIn(log, from, cap.days * DAY) < cap.max
  {
    hide CountIn;
    var next, w := log + [Some(now)], cap.days * DAY;
    forall from ensures CountIn(next, from, w) == CountIn(log, from, w) + if InWindow(Some(now), from, w) then 1 else 0 {
      Snoc(log, Some(now), from, w);
    }
    if Capped(cap, next) {
      forall from | from <= now < from + w ensures CountIn(log, from, w) < cap.max {
        assert CountIn(next, from, w) <= cap.max;
      }
    } else {
      var from :| CountIn(next, from, w) > cap.max;
      assert CountIn(log, from, w) <= cap.max;
      assert InWindow(Some(now), from, w) && CountIn(log, from, cap.days * DAY) >= cap.max;
    }
  }

  /** A full window holds `now` and reaches past it. */
  ghost predicate Crowded(cap: Cap, log: seq<Stamp>, now: Stamp) {
    now.Some? && exists from | now.value - cap.days * DAY + 1 < from <= now.value :: CountIn(log, from, cap.days * DAY) == cap.max
  }

  /** One more attempt in a full window is one too many. */
  lemma FullWindow(cap: Cap, log: seq<Stamp>, now: int, from: int)
    requires from <= now < from + cap.days * DAY && CountIn(log, from, cap.days * DAY) == cap.max
    ensures !Capped(cap, log + [Some(now)])
  {
    hide CountIn;
    Snoc(log, Some(now), from, cap.days * DAY);
    assert InWindow(Some(now), from, cap.days * DAY);
    assert CountIn(log + [Some(now)], from, cap.days * DAY) > cap.max;
  }

  /**
   * Of the windows that hold an attempt the gate looks at one, the one that ends with it.  So in a capped log
   * an open gate lets in one attempt too many exactly when some other window that holds the attempt, and
   * reaches past it, is full.
   */
  lemma OneTooManyExact(cap: Cap, log: seq<Stamp>, now: int)
    requires cap.days > 0 && cap.max > 0 && Capped(cap, log) && Open(cap, log, Some(now))
    ensures !Capped(cap, log + [Some(now)]) <==> Crowded(cap, log, Some(now))
  {
    hide CountIn, Within;
    RoomExact(cap, log, now);
    GateWindow(log, cap.days, now);
    var w := cap.days * DAY;
    if Crowded(cap, log, Some(now)) {
      var from :| now - cap.days * DAY + 1 < from <= now && CountIn(log, from, cap.days * DAY) == cap.max;
      FullWindow(cap, log, now, from);
    }
    if !Capped(cap, log + [Some(now)]) {
      var from :| from <= now < from + w && CountIn(log, from, w) >= cap.max;
      assert CountIn(log, from, w) <= cap.max;
      assert CountIn(log, now - w + 1, w) < cap.max;
      assert now - cap.days * DAY + 1 < from <= now && CountIn(log, from, cap.days * DAY) == cap.max;
    }
  }

  lemma CappedBefore(cap: Cap, log: seq<Stamp>, now: Stamp)
    requires Capped(cap, log + [now])
    ensures Capped(cap, log)
  {
    hide CountIn;
    forall from ensures CountIn(log, from, cap.days * DAY) <= cap.max {
      Snoc(log, now, from, cap.days * DAY);
      assert CountIn(log + [now], from, cap.days * DAY) <= cap.max;
    }
  }

  lemma UnreadableAdds(cap: Cap, log: seq<Stamp>)
    requires Capped(cap, log)
    ensures Capped(cap, log + [None])
  {
    hide CountIn;
    forall from ensures CountIn(log + [None], from, cap.days * DAY) <= cap.max {
      Snoc(log, None, from, cap.days * DAY);
      assert CountIn(log, from, cap.days * DAY) <= cap.max;
    }
  }

  /**
   * Attempts admitted only at an open gate, in any order, keep every window within the cap exactly when none
   * of them was admitted into a crowded log.
   */
  lemma {:induction false} AdmittedExact(cap: Cap, log: seq<Stamp>)
    requires cap.days > 0 && cap.max > 0 && Admitted(cap, log)
    ensures Capped(cap, log) <==> forall k | 0 <= k < |log| :: !Crowded(cap, log[..k], log[k])
  {
    hide Open, Capped, Crowded;
    if log == [] {
      NothingCapped(cap);
    } else {
      var init, now := log[..|log| - 1], log[|log| - 1];
      assert log == init + [now];
      forall k | 0 <= k < |init| ensures init[..k] == log[..k] && init[k] == log[k] && Open(cap, init[..k], init[k]) {
        assert init[..k] == log[..k] && init[k] == log[k] && Open(cap, log[..k], log[k]);
      }
      AdmittedExact(cap, init);
      assert Open(cap, log[..|init|], log[|init|]) && log[..|init|] == init;
      if Capped(cap, log) { CappedBefore(cap, init, now); }
      if Capped(cap, init) {
        if now.Some? {
          OneTooManyExact(cap, init, now.value);
        } else {
          UnreadableAdds(cap, init);
          NeverCrowded(cap, init);
        }
      }
    }
  }

  lemma NeverCrowded(cap: Cap, log: seq<Stamp>)
    ensures !Crowded(cap, log, None)
  {
  }

  /**
   * Time order is needed: after a full window of attempts at one time, an attempt recorded as made a
   * millisecond earlier finds its gate open, and the window then holds one attempt too many.
   */
  lemma BackdatedExceeds(cap: Cap, t: int) returns (log: seq<Stamp>)
    requires cap.days > 0 && cap.max > 0
    ensures Admitted(cap, log) && CountIn(log, t - 1, cap.days * DAY) == cap.max + 1
  {
    hide Within, CountIn;
    var full := Repeat(Some(t), cap.max);
    log := full + [Some(t - 1)];
    forall k | 0 <= k < |log| ensures Open(cap, log[..k], log[k]) {
      if k < cap.max {
        RepeatPrefix(Some(t), cap.max, k);
        assert log[..k] == full[..k];
        RepeatCounts(t, k, cap.days, t, t);
      } else {
        assert log[..k] == full;
        RepeatCounts(t, cap.max, cap.days, t - 1, t);
      }
    }
    RepeatCounts(t, cap.max, cap.days, t, t - 1);
    Snoc(full, Some(t - 1), t - 1, cap.days * DAY);
  }

  lemma {:induction false} RepeatPrefix(t: Stamp, k: nat, j: nat)
    requires j <= k
    ensures Repeat(t, k)[..j] == Repeat(t, j)
  {
  }

  /** The gate is open whatever the log holds exactly when the attempt's own time does not parse. */
  lemma UnreadableNowIsOpen(cap: Cap, now: Stamp)
    requires cap.days > 0 && cap.max > 0
    ensures (forall log :: Open(cap, log, now)) <==> now == None
  {
    if now == None {
      forall log ensures Open(cap, log, now) { NeverCounted(log, cap.days); }
    } else {
      RepeatCounts(now.value, cap.max, cap.days, now.value, now.value);
      assert !Open(cap, Repeat(now, cap.max), now);
    }
  }
}
