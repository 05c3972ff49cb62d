/**
 * Sending a notice again after a port failed (src/notices/service.ts:122-168): every decision is replayed from
 * the first, on top of what the failed send left behind.
 */
module NoticeRetries {
  import opened Basics
  import opened Channels
  import opened NoticeService
  import opened NoticeDeliveries
  import R = Registry
  import T = NoticeText

  // ---- when a send can fail midway

  /**
   * The notice waits to be sent, and two decisions go out, or the only one that does is electronic: there is
   * an attempt to accept or bounce, and another to fail.
   */
  predicate CanFailMidway(s: State, reg: R.State, id: nat, ctx: Context) {
    && id in s.notices && s.notices[id].status == Rendered && s.notices[id].content.templateCode in reg.templates
    && var gs := GoingOut(DecisionsOf(s, reg, id, ctx));
       |gs| >= 2 || (|gs| == 1 && !IsMail(gs[0].channel))
  }

  lemma {:induction false} SendSnoc(x: Sending, id: nat, rs: seq<Recipient>, cs: seq<Decision>, c: Decision, k: nat, answers: nat -> Answer)
    requires k <= |cs|
    ensures var y := SendFrom(x, id, rs, cs, k, answers);
            SendFrom(x, id, rs, cs + [c], k, answers) == if y.ok then Piece(y, id, rs, c, answers) else y
    decreases |cs| - k
  {
    hide Piece;
    if k < |cs| && x.ok {
      assert (cs + [c])[k] == cs[k];
      SendSnoc(Piece(x, id, rs, cs[k], answers), id, rs, cs, c, k + 1, answers);
    }
  }

  /** Decisions that are held make no difference to a send. */
  lemma {:induction false} SendGoingOut(x: Sending, id: nat, rs: seq<Recipient>, cs: seq<Decision>, answers: nat -> Answer)
    ensures SendFrom(x, id, rs, cs, 0, answers) == SendFrom(x, id, rs, GoingOut(cs), 0, answers)
  {
    if cs != [] {
      var init, c := cs[..|cs| - 1], cs[|cs| - 1];
      assert cs == init + [c];
      SendGoingOut(x, id, rs, init, answers);
      SendSnoc(x, id, rs, init, c, 0, answers);
      GoingOutSnoc(init, c);
      SendSnoc(x, id, rs, GoingOut(init), c, 0, answers);
    }
  }

  lemma SendTwo(x: Sending, id: nat, rs: seq<Recipient>, gs: seq<Decision>, answers: nat -> Answer)
    requires x.ok && |gs| >= 1
    ensures var p := Piece(x, id, rs, gs[0], answers);
            && (|gs| == 1 || !p.ok ==> SendFrom(x, id, rs, gs, 0, answers) == p)
            && (|gs| >= 2 && p.ok && !Piece(p, id, rs, gs[1], answers).ok ==> SendFrom(x, id, rs, gs, 0, answers) == Piece(p, id, rs, gs[1], answers))
  {
    hide Piece;
    var p := Piece(x, id, rs, gs[0], answers);
    assert SendFrom(x, id, rs, gs, 0, answers) == SendFrom(p, id, rs, gs, 1, answers);
    if |gs| >= 2 && p.ok {
      var q := Piece(p, id, rs, gs[1], answers);
      assert SendFrom(p, id, rs, gs, 1, answers) == SendFrom(q, id, rs, gs, 2, answers);
    }
  }

  /** Every decision that goes out is for a recipient of the notice. */
  lemma OutReach(s: State, reg: R.State, id: nat, ctx: Context, i: nat)
    requires id in s.notices && s.notices[id].content.templateCode in reg.templates && i < |GoingOut(DecisionsOf(s, reg, id, ctx))|
    ensures var g := GoingOut(DecisionsOf(s, reg, id, ctx))[i]; !g.held && FindRecipient(s.notices[id].content.recipients, g.partyId).Some?
  {
    hide GoingOut, DecideChannel, FindRecipient;
    var cs := DecisionsOf(s, reg, id, ctx);
    var g := GoingOut(cs)[i];
    GoingOutHas(cs, g);
    var k :| 0 <= k < |cs| && cs[k] == g;
    DecisionsReach(reg.templates[s.notices[id].content.templateCode], s.notices[id].content.recipients, ctx, s.consents, k);
  }

  lemma NoneOut(cs: seq<Decision>)
    ensures AllHeld(cs) <==> GoingOut(cs) == []
  {
    hide GoingOut;
    if GoingOut(cs) != [] {
      GoingOutHas(cs, GoingOut(cs)[0]);
    }
    if !AllHeld(cs) {
      var i :| 0 <= i < |cs| && !cs[i].held;
      GoingOutHas(cs, cs[i]);
    }
  }

  /** What an attempt for a decision that goes out does, by the port's answer. */
  lemma OnePiece(x: Sending, id: nat, rs: seq<Recipient>, g: Decision, answers: nat -> Answer)
    requires x.ok && !g.held && FindRecipient(rs, g.partyId).Some?
    ensures var p, k := Piece(x, id, rs, g, answers), |x.deliveries| + 1;
            && (answers(k) == Fails ==> !p.ok && p.deliveries == x.deliveries)
            && (IsMail(g.channel) && answers(k) != Fails ==> p.ok && |p.deliveries| == k)
            && (!IsMail(g.channel) && answers(k) == HardBounce && answers(k + 1) == Fails ==> !p.ok && |p.deliveries| == k)
  {
    hide FindRecipient, MarkSuspect;
  }

  /** A port that lets one attempt of a send through and fails all others. */
  function OneThrough(k: nat, mail: bool): nat -> Answer {
    n => if n != k then Fails else if mail then Accepted else HardBounce
  }

  /**
   * Before a send it can be told whether any answers of the ports can make it fail midway: exactly when two
   * recipients are to be reached, or the only one electronically.
   */
  lemma MidwayExact(s: State, reg: R.State, id: nat, ctx: Context)
    ensures (exists answers :: FailsMidway(s, Sends(reg, id, ctx, answers))) <==> CanFailMidway(s, reg, id, ctx)
  {
    hide GoingOut, DecideChannel, SendFrom, Piece, FindRecipient;
    if id in s.notices && s.notices[id].status == Rendered && s.notices[id].content.templateCode in reg.templates {
      var n, cs := s.notices[id], DecisionsOf(s, reg, id, ctx);
      var gs, x := GoingOut(cs), Sending(n.deliveries, s.events, s.consents, true);
      NoneOut(cs);
      if gs != [] {
        OutReach(s, reg, id, ctx, 0);
        forall answers ensures SendFrom(x, id, n.content.recipients, cs, 0, answers) == SendFrom(x, id, n.content.recipients, gs, 0, answers) {
          SendGoingOut(x, id, n.content.recipients, cs, answers);
        }
        if CanFailMidway(s, reg, id, ctx) {
          var answers := OneThrough(|n.deliveries| + 1, IsMail(gs[0].channel));
          SendTwo(x, id, n.content.recipients, gs, answers);
          OnePiece(x, id, n.content.recipients, gs[0], answers);
          if |gs| >= 2 {
            OutReach(s, reg, id, ctx, 1);
            var p := Piece(x, id, n.content.recipients, gs[0], answers);
            if p.ok { OnePiece(p, id, n.content.recipients, gs[1], answers); }
          }
          assert FailsMidway(s, Sends(reg, id, ctx, answers));
        } else {
          forall answers ensures !FailsMidway(s, Sends(reg, id, ctx, answers)) {
            SendTwo(x, id, n.content.recipients, gs, answers);
            OnePiece(x, id, n.content.recipients, gs[0], answers);
          }
        }
      }
    }
  }

  // ---- waiting notices

  /** Some send of the notice has failed midway in this run. */
  predicate SentPartly(consents: map<ConsentRef, Consent>, ops: seq<Op>, env: Env, id: nat) {
    ops != [] &&
    (SentPartly(consents, ops[..|ops| - 1], env, id) ||
     (ops[|ops| - 1].Sends? && ops[|ops| - 1].id == id && FailsMidway(Run(consents, ops[..|ops| - 1], env), ops[|ops| - 1])))
  }

  /** What one operation does to a notice that waits after it. */
  lemma WaitingStep(s: State, op: Op, env: Env, id: nat)
    requires Inv(s)
    ensures var t, partly := Do(s, op, env).state, op.Sends? && op.id == id && FailsMidway(s, op);
            && (id in s.notices ==> id in t.notices)
            && (id !in s.notices ==> !partly && (id in t.notices ==> t.notices[id].deliveries == []))
            && (id in s.notices && t.notices[id].status == Rendered ==>
                  s.notices[id].status == Rendered && (t.notices[id].deliveries != [] <==> s.notices[id].deliveries != [] || partly))
  {
    hide SendFrom, DecideChannel, ChecklistPasses, Replay, NoticeOk;
    hide R.ActiveVersion, T.Render;
    if op.Sends? && op.id in s.notices && s.notices[op.id].content.templateCode in op.reg.templates {
      var n := s.notices[op.id];
      var ds := DecideChannel(op.reg.templates[n.content.templateCode], n.content.recipients, op.ctx, s.consents);
      SendGrows(Sending(n.deliveries, s.events, s.consents, true), op.id, n.content.recipients, ds, 0, op.answers);
    }
  }

  ghost predicate PartlyKnown(s: State, id: nat, partly: bool) {
    && (id !in s.notices ==> !partly)
    && (id in s.notices && s.notices[id].status == Rendered ==> (s.notices[id].deliveries != [] <==> partly))
  }

  /** A waiting notice has deliveries exactly when an earlier send of it failed midway. */
  lemma {:induction false} WaitingExact(consents: map<ConsentRef, Consent>, ops: seq<Op>, env: Env, id: nat)
    ensures PartlyKnown(Run(consents, ops, env), id, SentPartly(consents, ops, env, id))
  {
    hide Do, FailsMidway, Inv;
    if ops != [] {
      var init, last := ops[..|ops| - 1], ops[|ops| - 1];
      WaitingExact(consents, init, env, id);
      RunInv(consents, init, env);
      WaitingStep(Run(consents, init, env), last, env, id);
    }
  }

  // ---- completed sends

  /** The first delivery of a notice is no fallback. */
  ghost predicate FirstPrimary(ds: seq<Delivery>) { ds != [] ==> ds[0].fallbackOf == None }

  lemma {:induction false} SendFirst(x: Sending, id: nat, rs: seq<Recipient>, cs: seq<Decision>, k: nat, answers: nat -> Answer)
    requires k <= |cs| && FirstPrimary(x.deliveries)
    ensures FirstPrimary(SendFrom(x, id, rs, cs, k, answers).deliveries)
    decreases |cs| - k
  {
    hide Piece;
    if k < |cs| && x.ok {
      PieceFirst(x, id, rs, cs[k], answers);
      SendFirst(Piece(x, id, rs, cs[k], answers), id, rs, cs, k + 1, answers);
    }
  }

  lemma PieceFirst(x: Sending, id: nat, rs: seq<Recipient>, c: Decision, answers: nat -> Answer)
    requires FirstPrimary(x.deliveries)
    ensures FirstPrimary(Piece(x, id, rs, c, answers).deliveries)
  {
    hide FindRecipient, MarkSuspect;
  }

  ghost predicate AllFirstPrimary(s: State) { forall id | id in s.notices :: FirstPrimary(s.notices[id].deliveries) }

  lemma FirstStep(s: State, op: Op, env: Env)
    requires Inv(s) && AllFirstPrimary(s)
    ensures AllFirstPrimary(Do(s, op, env).state)
  {
    hide SendFrom, DecideChannel, ChecklistPasses, Replay, NoticeOk;
    hide R.ActiveVersion, T.Render;
    if op.Sends? && op.id in s.notices && s.notices[op.id].content.templateCode in op.reg.templates {
      var n := s.notices[op.id];
      var ds := DecideChannel(op.reg.templates[n.content.templateCode], n.content.recipients, op.ctx, s.consents);
      SendFirst(Sending(n.deliveries, s.events, s.consents, true), op.id, n.content.recipients, ds, 0, op.answers);
    }
  }

  lemma {:induction false} RunFirst(consents: map<ConsentRef, Consent>, ops: seq<Op>, env: Env)
    ensures AllFirstPrimary(Run(consents, ops, env))
  {
    hide Do, Inv;
    if ops != [] {
      RunFirst(consents, ops[..|ops| - 1], env);
      RunInv(consents, ops[..|ops| - 1], env);
      FirstStep(Run(consents, ops[..|ops| - 1], env), ops[|ops| - 1], env);
    }
  }

  /** The send leaves the notice with one delivery per recipient reached, as decided, and one fallback per bounce, and no other. */
  ghost predicate GoodSend(s: State, op: Op)
    requires Completes(s, op)
  {
    var ds := SendNotice(s, op.reg, op.id, op.ctx, op.answers).state.notices[op.id].deliveries;
    s.notices[op.id].content.templateCode in op.reg.templates && Shaped(ds) && CarryOut(ds, DecisionsOf(s, op.reg, op.id, op.ctx))
  }

  lemma {:induction false} PrimariesConcat(a: seq<Delivery>, b: seq<Delivery>)
    ensures Primaries(a + b) == Primaries(a) + Primaries(b)
  {
    if b == [] {
      assert a + b == a;
    } else {
      var init, last := b[..|b| - 1], b[|b| - 1];
      assert a + b == (a + init) + [last] && b == init + [last];
      PrimariesConcat(a, init);
      PrimariesSnoc(a + init, last);
      PrimariesSnoc(init, last);
    }
  }

  lemma SomePrimary(ds: seq<Delivery>)
    requires ds != [] && FirstPrimary(ds)
    ensures |Primaries(ds)| > 0
  {
    hide Primaries;
    PrimariesHas(ds, ds[0]);
  }

  /** A completed send is good exactly when the notice had no deliveries before it. */
  lemma GoodExact(s: State, op: Op)
    requires Completes(s, op) && FirstPrimary(s.notices[op.id].deliveries)
    ensures GoodSend(s, op) <==> s.notices[op.id].deliveries == []
  {
    hide SendNotice, Shaped, Primaries, GoingOut, DecideChannel, Carries, FirstPrimary;
    CompletedSend(s, op);
    var was, ds := s.notices[op.id].deliveries, SendNotice(s, op.reg, op.id, op.ctx, op.answers).state.notices[op.id].deliveries;
    if was == [] {
      assert ds[|was|..] == ds;
    } else {
      assert ds == was + ds[|was|..];
      PrimariesConcat(was, ds[|was|..]);
      SomePrimary(was);
    }
  }

  /** In any run, a send that completes is good exactly when no earlier send of the notice failed midway. */
  lemma CompletedExact(consents: map<ConsentRef, Consent>, ops: seq<Op>, env: Env, op: Op)
    requires Completes(Run(consents, ops, env), op)
    ensures GoodSend(Run(consents, ops, env), op) <==> !SentPartly(consents, ops, env, op.id)
  {
    hide Run, SentPartly, GoodSend, FirstPrimary;
    RunFirst(consents, ops, env);
    WaitingExact(consents, ops, env, op.id);
    GoodExact(Run(consents, ops, env), op);
  }

  /** Every send that completed in the run was good. */
  ghost predicate SendsGood(consents: map<ConsentRef, Consent>, ops: seq<Op>, env: Env) {
    ops != [] ==>
      var s, op := Run(consents, ops[..|ops| - 1], env), ops[|ops| - 1];
      SendsGood(consents, ops[..|ops| - 1], env) && (Completes(s, op) ==> GoodSend(s, op))
  }

  /** No send that failed midway in the run was later completed by another. */
  predicate NoneResent(consents: map<ConsentRef, Consent>, ops: seq<Op>, env: Env) {
    ops != [] ==>
      var s, op := Run(consents, ops[..|ops| - 1], env), ops[|ops| - 1];
      NoneResent(consents, ops[..|ops| - 1], env) && (Completes(s, op) ==> !SentPartly(consents, ops[..|ops| - 1], env, op.id))
  }

  /**
   * In any run, all sent notices have one delivery per recipient reached and one fallback per bounce exactly
   * when no send that failed midway was followed by one of the same notice that completed.
   */
  lemma {:induction false} SendsGoodExact(consents: map<ConsentRef, Consent>, ops: seq<Op>, env: Env)
    ensures SendsGood(consents, ops, env) <==> NoneResent(consents, ops, env)
  {
    hide Run, SentPartly, GoodSend, Completes;
    if ops != [] {
      var init, op := ops[..|ops| - 1], ops[|ops| - 1];
      SendsGoodExact(consents, init, env);
      if Completes(Run(consents, init, env), op) { CompletedExact(consents, init, env, op); }
    }
  }
}
