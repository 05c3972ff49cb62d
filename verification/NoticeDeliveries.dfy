/** What a completed send leaves behind (src/notices/service.ts:122-168), and why a published version is never held on its sample. */
module NoticeDeliveries {
  import opened Basics
  import opened Channels
  import opened NoticeService
  import R = Registry
  import T = NoticeText

  /** Every bounced attempt is followed by its own mailed fallback, and every fallback follows the bounced attempt it names. */
  ghost predicate Shaped(ds: seq<Delivery>) {
    && (forall i | 0 <= i < |ds| && ds[i].bounced :: i + 1 < |ds| && FallbackFor(ds[i], ds[i + 1]))
    && (forall i | 0 <= i < |ds| && ds[i].fallbackOf.Some? :: i > 0 && ds[i - 1].bounced && ds[i].fallbackOf == Some(ds[i - 1].attemptNo))
  }

  predicate FallbackFor(d: Delivery, e: Delivery) {
    && !IsMail(d.channel) && d.fallbackOf == None
    && e.fallbackOf == Some(d.attemptNo)
    && e.partyId == d.partyId && e.channel == MailFirstClass && e.satisfiesTimer && !e.bounced
  }

  /** The deliveries that are not fallbacks. */
  function Primaries(ds: seq<Delivery>): seq<Delivery> {
    if ds == [] then []
    else Primaries(ds[..|ds| - 1]) + (if ds[|ds| - 1].fallbackOf == None then [ds[|ds| - 1]] else [])
  }

  /** The decisions that go out. */
  function GoingOut(ds: seq<Decision>): seq<Decision> {
    if ds == [] then []
    else GoingOut(ds[..|ds| - 1]) + (if !ds[|ds| - 1].held then [ds[|ds| - 1]] else [])
  }

  ghost predicate Carries(d: Delivery, c: Decision) {
    d.partyId == c.partyId && d.channel == c.channel && d.satisfiesTimer == c.satisfiesTimer && d.card == c.card
  }

  /** One delivery for every decision that goes out, in order. */
  ghost predicate CarryOut(ds: seq<Delivery>, cs: seq<Decision>) {
    var ps, gs := Primaries(ds), GoingOut(cs);
    |ps| == |gs| && forall i | 0 <= i < |ps| :: Carries(ps[i], gs[i])
  }

  lemma PrimariesSnoc(ds: seq<Delivery>, d: Delivery)
    ensures Primaries(ds + [d]) == if d.fallbackOf == None then Primaries(ds) + [d] else Primaries(ds)
  {
    assert (ds + [d])[..|ds|] == ds;
  }

  lemma GoingOutSnoc(cs: seq<Decision>, c: Decision)
    ensures GoingOut(cs + [c]) == if c.held then GoingOut(cs) else GoingOut(cs) + [c]
  {
    assert (cs + [c])[..|cs|] == cs;
  }

  lemma {:induction false} FoundIsParty(rs: seq<Recipient>, partyId: string)
    ensures FindRecipient(rs, partyId).Some? ==> FindRecipient(rs, partyId).value.partyId == partyId
    ensures FindRecipient(rs, partyId).Some? <==> exists i :: 0 <= i < |rs| && rs[i].partyId == partyId
  {
    if rs != [] {
      FoundIsParty(rs[1..], partyId);
      if i :| 0 <= i < |rs[1..]| && rs[1..][i].partyId == partyId { assert rs[i + 1].partyId == partyId; }
      if i :| 0 <= i < |rs| && rs[i].partyId == partyId { if i > 0 { assert rs[1..][i - 1].partyId == partyId; } }
    }
  }

  /** What one decision adds to the deliveries when the ports answer: nothing, one delivery, or a bounced one with its fallback. */
  lemma PieceAdds(x: Sending, id: nat, rs: seq<Recipient>, c: Decision, answers: nat -> Answer)
    requires x.ok && Piece(x, id, rs, c, answers).ok && FindRecipient(rs, c.partyId).Some?
    requires IsMail(c.channel) ==> c.card == None
    ensures var y, k := Piece(x, id, rs, c, answers), |x.deliveries| + 1;
            && (c.held ==> y.deliveries == x.deliveries)
            && (!c.held ==>
                  var d := Delivery(k, c.partyId, c.channel, c.satisfiesTimer, !IsMail(c.channel) && answers(k) == HardBounce, None, false, false, c.card);
                  y.deliveries == x.deliveries + [d] +
                    (if d.bounced then [Delivery(k + 1, c.partyId, MailFirstClass, true, false, Some(k), false, false, None)] else []))
  {
    FoundIsParty(rs, c.partyId);
    hide FindRecipient, MarkSuspect;
  }

  lemma AddPrimary(ds: seq<Delivery>, cs: seq<Decision>, c: Decision, d: Delivery)
    requires Shaped(ds) && CarryOut(ds, cs) && !c.held && Carries(d, c) && d.fallbackOf == None && !d.bounced
    ensures Shaped(ds + [d]) && CarryOut(ds + [d], cs + [c])
  {
    PrimariesSnoc(ds, d);
    GoingOutSnoc(cs, c);
  }

  lemma AddBounced(ds: seq<Delivery>, cs: seq<Decision>, c: Decision, d: Delivery, e: Delivery)
    requires Shaped(ds) && CarryOut(ds, cs) && !c.held && Carries(d, c) && d.fallbackOf == None && d.bounced && FallbackFor(d, e)
    ensures Shaped(ds + [d] + [e]) && CarryOut(ds + [d] + [e], cs + [c])
  {
    hide Shaped, CarryOut, Carries;
    BouncedShaped(ds, d, e);
    BouncedCarried(ds, cs, c, d, e);
  }

  lemma BouncedShaped(ds: seq<Delivery>, d: Delivery, e: Delivery)
    requires Shaped(ds) && d.fallbackOf == None && d.bounced && FallbackFor(d, e)
    ensures Shaped(ds + [d] + [e])
  {
    hide IsMail;
  }

  lemma BouncedCarried(ds: seq<Delivery>, cs: seq<Decision>, c: Decision, d: Delivery, e: Delivery)
    requires CarryOut(ds, cs) && !c.held && Carries(d, c) && d.fallbackOf == None && e.fallbackOf.Some?
    ensures CarryOut(ds + [d] + [e], cs + [c])
  {
    hide Primaries, GoingOut, Carries;
    PrimariesSnoc(ds, d);
    PrimariesSnoc(ds + [d], e);
    GoingOutSnoc(cs, c);
  }

  /** The deliveries a send has added to those before it are shaped and carry out the decisions so far. */
  ghost predicate Added(before: seq<Delivery>, now: seq<Delivery>, cs: seq<Decision>) {
    && before <= now && Shaped(now[|before|..]) && CarryOut(now[|before|..], cs)
  }

  lemma {:induction false} SendShaped(x: Sending, id: nat, rs: seq<Recipient>, cs: seq<Decision>, k: nat, answers: nat -> Answer, before: seq<Delivery>)
    requires k <= |cs| && x.ok && SendFrom(x, id, rs, cs, k, answers).ok
    requires Added(before, x.deliveries, cs[..k])
    requires forall i | 0 <= i < |cs| :: FindRecipient(rs, cs[i].partyId).Some? && (IsMail(cs[i].channel) ==> cs[i].card == None)
    ensures Added(before, SendFrom(x, id, rs, cs, k, answers).deliveries, cs)
    decreases |cs| - k
  {
    hide Piece, Added, FindRecipient;
    if k == |cs| {
      assert cs[..k] == cs;
    } else {
      var y := Piece(x, id, rs, cs[k], answers);
      PieceAdded(x, id, rs, cs, k, answers, before);
      SendShaped(y, id, rs, cs, k + 1, answers, before);
    }
  }

  lemma PieceAdded(x: Sending, id: nat, rs: seq<Recipient>, cs: seq<Decision>, k: nat, answers: nat -> Answer, before: seq<Delivery>)
    requires k < |cs| && x.ok && Piece(x, id, rs, cs[k], answers).ok && Added(before, x.deliveries, cs[..k])
    requires FindRecipient(rs, cs[k].partyId).Some? && (IsMail(cs[k].channel) ==> cs[k].card == None)
    ensures Added(before, Piece(x, id, rs, cs[k], answers).deliveries, cs[..k + 1])
  {
    hide Piece, Shaped, CarryOut, FindRecipient;
    var y, c, s := Piece(x, id, rs, cs[k], answers), cs[k], x.deliveries[|before|..];
    PieceAdds(x, id, rs, c, answers);
    assert cs[..k + 1] == cs[..k] + [c];
    var n := |x.deliveries| + 1;
    var d := Delivery(n, c.partyId, c.channel, c.satisfiesTimer, !IsMail(c.channel) && answers(n) == HardBounce, None, false, false, c.card);
    var e := Delivery(n + 1, c.partyId, MailFirstClass, true, false, Some(n), false, false, None);
    if c.held {
      HeldAddsNothing(s, cs[..k], c);
    } else if d.bounced {
      AddBounced(s, cs[..k], c, d, e);
      assert y.deliveries[|before|..] == s + [d] + [e];
    } else {
      AddPrimary(s, cs[..k], c, d);
      assert y.deliveries[|before|..] == s + [d];
    }
  }

  lemma HeldAddsNothing(ds: seq<Delivery>, cs: seq<Decision>, c: Decision)
    requires CarryOut(ds, cs) && c.held
    ensures CarryOut(ds, cs + [c])
  {
    GoingOutSnoc(cs, c);
  }

  lemma {:induction false} GoingOutHas(cs: seq<Decision>, c: Decision)
    ensures c in GoingOut(cs) <==> c in cs && !c.held
  {
    if cs != [] {
      var init, last := cs[..|cs| - 1], cs[|cs| - 1];
      GoingOutHas(init, c);
      assert cs == init + [last];
    }
  }

  lemma {:induction false} PrimariesHas(ds: seq<Delivery>, d: Delivery)
    ensures d in Primaries(ds) <==> d in ds && d.fallbackOf == None
  {
    if ds != [] {
      var init, last := ds[..|ds| - 1], ds[|ds| - 1];
      PrimariesHas(init, d);
      assert ds == init + [last];
    }
  }

  lemma DecisionsReach(t: R.NoticeTemplate, rs: seq<Recipient>, ctx: Context, consents: map<ConsentRef, Consent>, i: nat)
    requires i < |rs|
    ensures var d := DecideChannel(t, rs, ctx, consents)[i];
            FindRecipient(rs, d.partyId).Some? && (IsMail(d.channel) ==> d.card == None)
  {
    hide DecideChannel, FindRecipient;
    ElectronicExact(t, rs, ctx, consents, i);
    FoundIsParty(rs, DecideChannel(t, rs, ctx, consents)[i].partyId);
  }

  /** The decisions a send of this notice would take. */
  function DecisionsOf(s: State, reg: R.State, id: nat, ctx: Context): seq<Decision>
    requires id in s.notices && s.notices[id].content.templateCode in reg.templates
  {
    DecideChannel(reg.templates[s.notices[id].content.templateCode], s.notices[id].content.recipients, ctx, s.consents)
  }

  /** The send is of a waiting notice and ends with the notice sent. */
  predicate Completes(s: State, op: Op) {
    && op.Sends? && op.id in s.notices && s.notices[op.id].status == Rendered
    && var o := SendNotice(s, op.reg, op.id, op.ctx, op.answers);
       o.refused == None && op.id in o.state.notices && o.state.notices[op.id].status == Sent
  }

  /**
   * A send that completes adds one delivery for every recipient that can be reached, in order, each as
   * decided, plus one mailed fallback right after each bounced attempt, naming it; whatever deliveries the
   * notice had before stay in front of them.  At least one added delivery satisfies the regulatory timer; and
   * when any recipient was reached by mail, no added electronic delivery does.
   */
  lemma CompletedSend(s: State, op: Op)
    requires Completes(s, op)
    ensures var was, ds := s.notices[op.id].deliveries, SendNotice(s, op.reg, op.id, op.ctx, op.answers).state.notices[op.id].deliveries;
            && s.notices[op.id].content.templateCode in op.reg.templates
            && was <= ds
            && var added := ds[|was|..];
               && Shaped(added)
               && CarryOut(added, DecisionsOf(s, op.reg, op.id, op.ctx))
               && (exists d :: d in added && d.satisfiesTimer)
               && ((exists d :: d in added && IsMail(d.channel) && d.fallbackOf == None) ==> forall d | d in added && !IsMail(d.channel) :: !d.satisfiesTimer)
  {
    hide SendFrom, DecideChannel, Shaped, CarryOut, FindRecipient;
    var n := s.notices[op.id];
    var t, rs := op.reg.templates[n.content.templateCode], n.content.recipients;
    var cs := DecisionsOf(s, op.reg, op.id, op.ctx);
    forall i | 0 <= i < |cs| ensures FindRecipient(rs, cs[i].partyId).Some? && (IsMail(cs[i].channel) ==> cs[i].card == None) {
      DecisionsReach(t, rs, op.ctx, s.consents, i);
    }
    NothingAdded(n.deliveries, cs);
    SendShaped(Sending(n.deliveries, s.events, s.consents, true), op.id, rs, cs, 0, op.answers, n.deliveries);
    TimerSatisfied(t, rs, op.ctx, s.consents);
    var ds := SendNotice(s, op.reg, op.id, op.ctx, op.answers).state.notices[op.id].deliveries;
    TimerCarried(ds[|n.deliveries|..], cs);
  }

  lemma NothingAdded(before: seq<Delivery>, cs: seq<Decision>)
    ensures Added(before, before, cs[..0])
  {
    assert before[|before|..] == [] && cs[..0] == [];
  }

  /** What holds of the decisions about the timer holds of the deliveries that carry them out. */
  lemma TimerCarried(ds: seq<Delivery>, cs: seq<Decision>)
    requires Shaped(ds) && CarryOut(ds, cs) && !AllHeld(cs)
    requires (exists i :: 0 <= i < |cs| && !cs[i].held) ==> exists i :: 0 <= i < |cs| && !cs[i].held && cs[i].satisfiesTimer
    requires AnyMail(cs) ==> forall i | 0 <= i < |cs| && !IsMail(cs[i].channel) :: !cs[i].satisfiesTimer
    ensures exists d :: d in ds && d.satisfiesTimer
    ensures (exists d :: d in ds && IsMail(d.channel) && d.fallbackOf == None) ==> forall d | d in ds && !IsMail(d.channel) :: !d.satisfiesTimer
  {
    hide Primaries, GoingOut;
    var i :| 0 <= i < |cs| && !cs[i].held && cs[i].satisfiesTimer;
    GoingOutHas(cs, cs[i]);
    var j :| 0 <= j < |GoingOut(cs)| && GoingOut(cs)[j] == cs[i];
    PrimariesHas(ds, Primaries(ds)[j]);
    if m :| m in ds && IsMail(m.channel) && m.fallbackOf == None {
      var c := CarriedFrom(ds, cs, m);
      assert AnyMail(cs);
      forall d | d in ds && !IsMail(d.channel) ensures !d.satisfiesTimer {
        ElectronicIsPrimary(ds, d);
        var b := CarriedFrom(ds, cs, d);
      }
    }
  }

  lemma ElectronicIsPrimary(ds: seq<Delivery>, d: Delivery)
    requires Shaped(ds) && d in ds && !IsMail(d.channel)
    ensures d.fallbackOf == None
  {
    var i :| 0 <= i < |ds| && ds[i] == d;
    assert d.fallbackOf.Some? ==> FallbackFor(ds[i - 1], ds[i - 1 + 1]) && IsMail(d.channel);
  }

  lemma CarriedFrom(ds: seq<Delivery>, cs: seq<Decision>, d: Delivery) returns (c: Decision)
    requires CarryOut(ds, cs) && d in ds && d.fallbackOf == None
    ensures c in cs && !c.held && Carries(d, c)
  {
    PrimariesHas(ds, d);
    var j :| 0 <= j < |Primaries(ds)| && Primaries(ds)[j] == d;
    c := GoingOut(cs)[j];
    GoingOutHas(cs, c);
  }

  // ---- bounced consents

  /** Of the deliveries from the `k`-th on, each that bounced relied on a consent that is suspect now. */
  ghost predicate BouncedSuspect(ds: seq<Delivery>, k: nat, rs: seq<Recipient>, consents: map<ConsentRef, Consent>) {
    forall i | k <= i < |ds| && ds[i].bounced :: ConsentSuspect(FindRecipient(rs, ds[i].partyId), consents)
  }

  predicate ConsentSuspect(r: Option<Recipient>, consents: map<ConsentRef, Consent>) {
    r.Some? && (r.value.consent.Some? && r.value.consent.value in consents ==> consents[r.value.consent.value].status == Suspect)
  }

  /** A send changes consents only to suspect ones. */
  ghost predicate OnlyToSuspect(a: map<ConsentRef, Consent>, b: map<ConsentRef, Consent>) {
    b.Keys == a.Keys && forall ref | ref in a :: b[ref] == a[ref] || b[ref] == a[ref].(status := Suspect)
  }

  lemma PieceSuspect(x: Sending, id: nat, rs: seq<Recipient>, c: Decision, answers: nat -> Answer, k: nat)
    requires k <= |x.deliveries| && BouncedSuspect(x.deliveries, k, rs, x.consents)
    ensures var y := Piece(x, id, rs, c, answers);
            && |x.deliveries| <= |y.deliveries| && OnlyToSuspect(x.consents, y.consents) && BouncedSuspect(y.deliveries, k, rs, y.consents)
  {
    FoundIsParty(rs, c.partyId);
    hide FindRecipient;
    var y := Piece(x, id, rs, c, answers);
    forall i | k <= i < |y.deliveries| && y.deliveries[i].bounced ensures ConsentSuspect(FindRecipient(rs, y.deliveries[i].partyId), y.consents) {
      if i < |x.deliveries| { assert y.deliveries[i] == x.deliveries[i]; }
    }
  }

  lemma {:induction false} SendSuspect(x: Sending, id: nat, rs: seq<Recipient>, cs: seq<Decision>, j: nat, answers: nat -> Answer, k: nat)
    requires j <= |cs| && k <= |x.deliveries| && BouncedSuspect(x.deliveries, k, rs, x.consents)
    ensures var y := SendFrom(x, id, rs, cs, j, answers);
            && |x.deliveries| <= |y.deliveries| && OnlyToSuspect(x.consents, y.consents) && BouncedSuspect(y.deliveries, k, rs, y.consents)
    decreases |cs| - j
  {
    hide Piece, BouncedSuspect;
    if j < |cs| && x.ok {
      PieceSuspect(x, id, rs, cs[j], answers, k);
      SendSuspect(Piece(x, id, rs, cs[j], answers), id, rs, cs, j + 1, answers, k);
    }
  }

  /** After a send, whatever became of it, every attempt it added that bounced has its consent suspect. */
  lemma BounceMakesSuspect(s: State, op: Op)
    requires op.Sends? && op.id in s.notices
    ensures var t := SendNotice(s, op.reg, op.id, op.ctx, op.answers).state;
            && op.id in t.notices && OnlyToSuspect(s.consents, t.consents)
            && BouncedSuspect(t.notices[op.id].deliveries, |s.notices[op.id].deliveries|, s.notices[op.id].content.recipients, t.consents)
  {
    hide SendFrom, DecideChannel, FindRecipient;
    var n := s.notices[op.id];
    if n.content.templateCode in op.reg.templates {
      var ds := DecideChannel(op.reg.templates[n.content.templateCode], n.content.recipients, op.ctx, s.consents);
      SendSuspect(Sending(n.deliveries, s.events, s.consents, true), op.id, n.content.recipients, ds, 0, op.answers, |n.deliveries|);
    }
  }

  /** Of the deliveries from the `k`-th on, one that bounced relied on this consent. */
  ghost predicate BouncedOn(ds: seq<Delivery>, k: nat, rs: seq<Recipient>, ref: ConsentRef) {
    exists i | k <= i < |ds| ::
      ds[i].bounced && FindRecipient(rs, ds[i].partyId).Some? && FindRecipient(rs, ds[i].partyId).value.consent == Some(ref)
  }

  ghost predicate ChangedByBounce(a: map<ConsentRef, Consent>, x: Sending, k: nat, rs: seq<Recipient>) {
    forall ref | ref in a && ref in x.consents && x.consents[ref] != a[ref] :: BouncedOn(x.deliveries, k, rs, ref)
  }

  lemma PieceChanges(a: map<ConsentRef, Consent>, x: Sending, id: nat, rs: seq<Recipient>, c: Decision, answers: nat -> Answer, k: nat)
    requires k <= |x.deliveries| && ChangedByBounce(a, x, k, rs)
    ensures var y := Piece(x, id, rs, c, answers); |x.deliveries| <= |y.deliveries| && ChangedByBounce(a, y, k, rs)
  {
    FoundIsParty(rs, c.partyId);
    hide FindRecipient, BouncedOn;
    var y := Piece(x, id, rs, c, answers);
    forall ref | ref in a && ref in y.consents && y.consents[ref] != a[ref] ensures BouncedOn(y.deliveries, k, rs, ref) {
      if ref in x.consents && x.consents[ref] != a[ref] {
        MoreBounced(x.deliveries, y.deliveries, k, rs, ref);
      } else {
        JustBounced(y.deliveries, k, rs, ref, |x.deliveries|);
      }
    }
  }

  lemma MoreBounced(ds: seq<Delivery>, es: seq<Delivery>, k: nat, rs: seq<Recipient>, ref: ConsentRef)
    requires ds <= es && BouncedOn(ds, k, rs, ref)
    ensures BouncedOn(es, k, rs, ref)
  {
    var i :| k <= i < |ds| && ds[i].bounced && FindRecipient(rs, ds[i].partyId).Some? && FindRecipient(rs, ds[i].partyId).value.consent == Some(ref);
    assert es[i] == ds[i];
  }

  lemma JustBounced(ds: seq<Delivery>, k: nat, rs: seq<Recipient>, ref: ConsentRef, i: nat)
    requires k <= i < |ds| && ds[i].bounced && FindRecipient(rs, ds[i].partyId).Some? && FindRecipient(rs, ds[i].partyId).value.consent == Some(ref)
    ensures BouncedOn(ds, k, rs, ref)
  {
  }

  lemma {:induction false} SendChanges(a: map<ConsentRef, Consent>, x: Sending, id: nat, rs: seq<Recipient>, cs: seq<Decision>, j: nat, answers: nat -> Answer, k: nat)
    requires j <= |cs| && k <= |x.deliveries| && ChangedByBounce(a, x, k, rs)
    ensures ChangedByBounce(a, SendFrom(x, id, rs, cs, j, answers), k, rs)
    decreases |cs| - j
  {
    hide Piece, ChangedByBounce;
    if j < |cs| && x.ok {
      PieceChanges(a, x, id, rs, cs[j], answers, k);
      SendChanges(a, Piece(x, id, rs, cs[j], answers), id, rs, cs, j + 1, answers, k);
    }
  }

  /**
   * After a send, whatever became of it, a consent is suspect exactly when it was before or an attempt that the
   * send added and that bounced relied on it; of the consents nothing else has changed.
   */
  lemma SuspectExact(s: State, op: Op, ref: ConsentRef)
    requires op.Sends? && op.id in s.notices && ref in s.consents
    ensures var t := SendNotice(s, op.reg, op.id, op.ctx, op.answers).state;
            && op.id in t.notices && t.consents.Keys == s.consents.Keys
            && var bounced := BouncedOn(t.notices[op.id].deliveries, |s.notices[op.id].deliveries|, s.notices[op.id].content.recipients, ref);
               && (t.consents[ref].status == Suspect <==> s.consents[ref].status == Suspect || bounced)
               && t.consents[ref] == if bounced then s.consents[ref].(status := Suspect) else s.consents[ref]
  {
    BounceMakesSuspect(s, op);
    hide SendFrom, DecideChannel, FindRecipient;
    var n := s.notices[op.id];
    if n.content.templateCode in op.reg.templates {
      var ds := DecideChannel(op.reg.templates[n.content.templateCode], n.content.recipients, op.ctx, s.consents);
      var x := Sending(n.deliveries, s.events, s.consents, true);
      SendChanges(s.consents, x, op.id, n.content.recipients, ds, 0, op.answers, |n.deliveries|);
    }
  }

  /** Operations done one after the other from a given state. */
  function From(s: State, ops: seq<Op>, env: Env): State {
    if ops == [] then s else Do(From(s, ops[..|ops| - 1], env), ops[|ops| - 1], env).state
  }

  lemma DoKeepsSuspect(s: State, op: Op, env: Env)
    requires !op.ConsentsChanged?
    ensures OnlyToSuspect(s.consents, Do(s, op, env).state.consents)
  {
    hide SendNotice, RenderNotice;
    if op.Rendering? {
      RenderKeepsConsents(s, op, env);
    }
    if op.Sends? {
      if op.id in s.notices { BounceMakesSuspect(s, op); } else { NoSend(s, op); }
    }
  }

  lemma RenderKeepsConsents(s: State, op: Op, env: Env)
    requires op.Rendering?
    ensures RenderNotice(s, op.reg, op.code, op.recipients, op.payload, op.asOf, env).state.consents == s.consents
  {
    hide R.ActiveVersion, T.Render, ChecklistPasses;
  }

  lemma NoSend(s: State, op: Op)
    requires op.Sends? && op.id !in s.notices
    ensures SendNotice(s, op.reg, op.id, op.ctx, op.answers).state == s
  {
  }

  lemma {:induction false} SuspectLasts(s: State, ops: seq<Op>, env: Env, ref: ConsentRef)
    requires ref in s.consents && s.consents[ref].status == Suspect && forall i | 0 <= i < |ops| :: !ops[i].ConsentsChanged?
    ensures var t := From(s, ops, env); ref in t.consents && t.consents[ref].status == Suspect
  {
    hide Do;
    if ops != [] {
      SuspectLasts(s, ops[..|ops| - 1], env, ref);
      DoKeepsSuspect(From(s, ops[..|ops| - 1], env), ops[|ops| - 1], env);
    }
  }

  /**
   * Once an attempt of a send has bounced, and until the consents are next changed from outside, every notice
   * whose policy asks for consent goes by mail to every recipient that relies on the consent of the bounced
   * attempt's recipient.
   */
  lemma BouncedGoesByMail(s: State, send: Op, more: seq<Op>, env: Env, i: nat, t: R.NoticeTemplate, rs: seq<Recipient>, ctx: Context, j: nat)
    requires send.Sends? && send.id in s.notices && forall h | 0 <= h < |more| :: !more[h].ConsentsChanged?
    requires var n := SendNotice(s, send.reg, send.id, send.ctx, send.answers).state.notices[send.id];
             |s.notices[send.id].deliveries| <= i < |n.deliveries| && n.deliveries[i].bounced
             && var r := FindRecipient(s.notices[send.id].content.recipients, n.deliveries[i].partyId);
                r.Some? && r.value.consent.Some? && r.value.consent.value in s.consents
                && j < |rs| && rs[j].consent == r.value.consent
    requires t.channelPolicy == R.EsignOrMail
    ensures IsMail(DecideChannel(t, rs, ctx, From(Do(s, send, env).state, more, env).consents)[j].channel)
  {
    hide SendNotice, DecideChannel, FindRecipient;
    BounceMakesSuspect(s, send);
    var after := Do(s, send, env).state;
    SuspectLasts(after, more, env, rs[j].consent.value);
    SuspectGoesByMail(t, rs, ctx, From(after, more, env).consents, j);
  }

  /** While a consent is suspect, a notice whose policy asks for consent goes by mail to every recipient that relies on it. */
  lemma SuspectGoesByMail(t: R.NoticeTemplate, rs: seq<Recipient>, ctx: Context, consents: map<ConsentRef, Consent>, i: nat)
    requires i < |rs| && t.channelPolicy == R.EsignOrMail
    requires rs[i].consent.Some? && rs[i].consent.value in consents && consents[rs[i].consent.value].status == Suspect
    ensures IsMail(DecideChannel(t, rs, ctx, consents)[i].channel)
  {
    ElectronicExact(t, rs, ctx, consents, i);
  }

  // ---- a published version on its own sample

  /** The publish gate: the version's source renders on its sample payload, and the checklist passes. */
  function Gate(env: Env): R.Content -> bool {
    (content: R.Content) =>
      match T.Render(content.source, content.samplePayload, env.formats)
      case Err(_) => false
      case Ok(n) => ChecklistPasses(content, content.samplePayload, n, env)
  }

  /**
   * In a registry whose gate no draft bypassed, rendering the version in effect on its own sample payload, for
   * at least one recipient, is never held and never refused.
   */
  lemma SampleIsNeverHeld(ops: seq<R.Op>, env: Env, s: State, code: string, recipients: seq<Recipient>, asOf: int)
    requires R.NeverBypassed(ops, Gate(env))
    requires recipients != []
    requires var reg := R.Run(ops, Gate(env)); code in reg.templates && R.ActiveVersion(reg, code, asOf).Some?
    ensures var reg := R.Run(ops, Gate(env));
            var sample := R.ActiveVersion(reg, code, asOf).value.content.samplePayload;
            var o := RenderNotice(s, reg, code, recipients, sample, asOf, env);
            o.refused == None && s.nextId in o.state.notices && o.state.notices[s.nextId].status == Rendered
  {
    hide R.Run, R.ActiveVersion, T.Render, ChecklistPasses;
    var reg := R.Run(ops, Gate(env));
    R.GateHoldsExact(ops, Gate(env));
    assert R.AllPass(reg, Gate(env));
    R.ActiveVersionExact(reg, code, asOf);
    var v := R.ActiveVersion(reg, code, asOf).value;
    assert code in reg.versions;
    var i :| 0 <= i < |reg.versions[code]| && reg.versions[code][i] == v;
    assert Gate(env)(v.content);
  }
}
