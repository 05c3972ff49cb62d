/** Runs of the notice service, from an empty one on, in which a retry goes wrong (src/notices/service.ts:122-168). */
module NoticeFailures {
  import opened Basics
  import opened TemplateValues
  import opened TemplateEngine
  import opened Channels
  import opened NoticeService
  import opened NoticeDeliveries
  import C = Checklist
  import R = Registry
  import T = NoticeText

  lemma RunSnoc(consents: map<ConsentRef, Consent>, ops: seq<Op>, op: Op, env: Env)
    ensures Run(consents, ops + [op], env) == Do(Run(consents, ops, env), op, env).state
  {
    hide Do;
    assert (ops + [op])[..|ops|] == ops;
  }

  /** A version with an empty source and no rules. */
  function Blank(code: string): R.Content { R.Content(code, "1", 0, "", [], Null) }

  lemma BlankPasses(code: string, env: Env)
    ensures T.Render("", Null, env.formats).Ok?
    ensures var n := T.Render("", Null, env.formats).value; ChecklistPasses(Blank(code), Null, n, env)
    ensures Gate(env)(Blank(code))
  {
    SectionFromEnd("", Scope([Frame(Null, None)], env.formats));
    hide T.PlainText;
    assert C.ResultsAfter([], 0, Null, C.Rendered("", []), env.judge) == map[];
  }

  /** Its template registered, and the version drafted and published through the gate. */
  lemma Published(t: R.NoticeTemplate, env: Env) returns (reg: R.State)
    ensures reg == R.Run([R.Register(t), R.AddDraft(Blank(t.code), None, None), R.Publish(t.code, "1", "counsel")], Gate(env))
    ensures reg.templates == map[t.code := t]
    ensures var v := R.ActiveVersion(reg, t.code, 0); v.Some? && v.value.content == Blank(t.code)
  {
    BlankPasses(t.code, env);
    hide Gate, T.Render, ChecklistPasses;
    var check := Gate(env);
    var ops := [R.Register(t), R.AddDraft(Blank(t.code), None, None), R.Publish(t.code, "1", "counsel")];
    reg := R.Run(ops, check);
    assert ops[..2] == [ops[0], ops[1]] && ops[..2][..1] == [ops[0]] && [ops[0]][..0] == [];
    var s1 := R.Do(R.EMPTY, ops[0], check).state;
    assert R.Run([ops[0]], check) == s1;
    var draft := R.Version(Blank(t.code), R.Draft, None, None);
    var s2 := R.Do(s1, ops[1], check).state;
    assert R.Run(ops[..2], check) == s2;
    assert R.VersionsOf(s2, t.code) == [draft];
    assert R.IndexOf([draft], "1") == 0;
    assert reg == R.Do(s2, ops[2], check).state;
    var approved := R.Version(Blank(t.code), R.CounselApproved, None, Some("counsel"));
    assert R.VersionsOf(reg, t.code) == [approved];
    R.ActiveVersionExact(reg, t.code, 0);
    assert approved in R.VersionsOf(reg, t.code) && R.InEffect(approved, 0);
  }

  /** One rendering: notice 0 waits to be sent. */
  lemma Waiting(t: R.NoticeTemplate, rs: seq<Recipient>, consents: map<ConsentRef, Consent>, env: Env) returns (op: Op)
    requires rs != []
    ensures op.Rendering? && op.reg.templates == map[t.code := t]
    ensures var s := Run(consents, [op], env);
            && 0 in s.notices && s.notices[0].status == Rendered && s.notices[0].deliveries == [] && s.consents == consents
            && s.notices[0].content.recipients == rs && s.notices[0].content.templateCode == t.code
  {
    var reg := Published(t, env);
    op := Rendering(reg, t.code, rs, Null, 0);
    BlankPasses(t.code, env);
    hide Gate, T.Render, ChecklistPasses;
    hide R.ActiveVersion, R.Run;
    RunSnoc(consents, [], op, env);
    assert [] + [op] == [op];
    assert Run(consents, [], env) == Init(consents);
  }

  const PLAIN := Context(false, false, false, map[])

  /** A run of three operations. */
  lemma RunThree(consents: map<ConsentRef, Consent>, a: Op, b: Op, c: Op, env: Env)
    ensures Run(consents, [a, b, c], env) == Do(Do(Run(consents, [a], env), b, env).state, c, env).state
    ensures Run(consents, [a, b], env) == Do(Run(consents, [a], env), b, env).state
  {
    hide Do;
    RunSnoc(consents, [a], b, env);
    RunSnoc(consents, [a, b], c, env);
    assert [a] + [b] == [a, b] && [a, b] + [c] == [a, b, c];
  }

  /**
   * A held notice with a delivery: rendered for a recipient with an active consent and no address; the email
   * bounces and the fallback fails; the next send finds nobody reachable.
   */
  lemma HeldRun(env: Env) returns (consents: map<ConsentRef, Consent>, ops: seq<Op>)
    ensures |ops| == 3 && ops[0].Rendering? && ops[1].Sends? && ops[2].Sends?
    ensures var s := Run(consents, ops, env); 0 in s.notices && s.notices[0].status == Held && |s.notices[0].deliveries| == 1
  {
    var t := R.NoticeTemplate("N", "class", R.EsignOrMail, false);
    var r := Recipient("a", None, Some("a@b"), Some("c"), false);
    consents := map["c" := Consent(Active, ["class"])];
    var op := Waiting(t, [r], consents, env);
    var bouncing: nat -> Answer := k => if k == 1 then HardBounce else Fails;
    var accepting: nat -> Answer := k => Accepted;
    ops := [op, Sends(op.reg, 0, PLAIN, bouncing), Sends(op.reg, 0, PLAIN, accepting)];
    hide Run, SendNotice;
    RunThree(consents, ops[0], ops[1], ops[2], env);
    HeldWithDelivery(Run(consents, [op], env), op.reg, 0, t, r, "c", PLAIN, bouncing, accepting);
    KeepsNotice(Run(consents, [op], env), op.reg, 0, PLAIN, bouncing);
    KeepsNotice(SendNotice(Run(consents, [op], env), op.reg, 0, PLAIN, bouncing).state, op.reg, 0, PLAIN, accepting);
  }

  lemma KeepsNotice(s: State, reg: R.State, id: nat, ctx: Context, answers: nat -> Answer)
    requires id in s.notices
    ensures id in SendNotice(s, reg, id, ctx, answers).state.notices
  {
    SendKept(s, reg, id, ctx, answers);
    hide SendNotice;
  }

  // ---- retries that complete

  /** Two recipients by mail; the port takes the first piece and fails the second; then the notice is sent again. */
  lemma MailedTwice(s: State, reg: R.State, id: nat, t: R.NoticeTemplate, r: Recipient, q: Recipient, failing: nat -> Answer, accepting: nat -> Answer)
    requires id in s.notices && s.notices[id].status == Rendered && s.notices[id].deliveries == []
    requires s.notices[id].content.recipients == [r, q] && s.notices[id].content.templateCode == t.code
    requires t.code in reg.templates && reg.templates[t.code] == t && t.channelPolicy == R.MailOnly
    requires r.mailingAddress.Some? && q.mailingAddress.Some? && r.partyId != q.partyId
    requires failing(1) == Accepted && failing(2) == Fails && forall k :: accepting(k) == Accepted
    ensures var first := SendNotice(s, reg, id, PLAIN, failing).state;
            && id in first.notices && FailsMidway(s, Sends(reg, id, PLAIN, failing))
            && var again := SendNotice(first, reg, id, PLAIN, accepting);
               && again.refused == None && id in again.state.notices && again.state.notices[id].status == Sent
               && var ds := again.state.notices[id].deliveries;
                  |ds| == 3 && ds[0].partyId == r.partyId == ds[1].partyId && ds[2].partyId == q.partyId
                  && forall i | 0 <= i < 3 :: ds[i].channel == MailFirstClass
  {
    var rs := [r, q];
    var ds := DecideChannel(t, rs, PLAIN, s.consents);
    assert ds == [Decision(r.partyId, MailFirstClass, true, false, None), Decision(q.partyId, MailFirstClass, true, false, None)];
    assert FindRecipient(rs, r.partyId) == Some(r);
    assert rs[1..] == [q];
    assert FindRecipient([q], q.partyId) == Some(q);
    assert FindRecipient(rs, q.partyId) == Some(q);
    hide FindRecipient, DecideChannel, MarkSuspect;
    var x0 := Sending([], s.events, s.consents, true);
    var x1 := Piece(x0, id, rs, ds[0], failing);
    var x2 := Piece(x1, id, rs, ds[1], failing);
    SendPair(x0, id, rs, ds, failing);
    var first := SendNotice(s, reg, id, PLAIN, failing).state;
    assert first.notices[id].deliveries == x1.deliveries && first.consents == s.consents;
    var y0 := Sending(x1.deliveries, first.events, first.consents, true);
    SendPair(y0, id, rs, ds, accepting);
  }

  lemma SendPair(x: Sending, id: nat, rs: seq<Recipient>, ds: seq<Decision>, answers: nat -> Answer)
    requires |ds| == 2 && x.ok
    ensures var y := Piece(x, id, rs, ds[0], answers);
            SendFrom(x, id, rs, ds, 0, answers) == if y.ok then Piece(y, id, rs, ds[1], answers) else y
  {
    hide Piece;
    var y := Piece(x, id, rs, ds[0], answers);
    assert SendFrom(x, id, rs, ds, 0, answers) == SendFrom(y, id, rs, ds, 1, answers);
    if y.ok {
      var z := Piece(y, id, rs, ds[1], answers);
      assert SendFrom(z, id, rs, ds, 2, answers) == z;
    }
  }

  /** A run in which a retry mails the first recipient twice. */
  lemma RetryMailsTwice(env: Env) returns (consents: map<ConsentRef, Consent>, ops: seq<Op>)
    ensures |ops| == 3 && ops[0].Rendering? && ops[1].Sends? && ops[2].Sends?
    ensures var s := Run(consents, ops, env);
            && 0 in s.notices && s.notices[0].status == Sent && |s.notices[0].deliveries| == 3
            && s.notices[0].deliveries[0].partyId == s.notices[0].deliveries[1].partyId
            && s.notices[0].deliveries[0].channel == MailFirstClass == s.notices[0].deliveries[1].channel
  {
    var t := R.NoticeTemplate("N", "class", R.MailOnly, false);
    var r, q := Recipient("a", Some("1 A St"), None, None, false), Recipient("b", Some("2 B St"), None, None, false);
    consents := map[];
    var op := Waiting(t, [r, q], consents, env);
    var failing: nat -> Answer := k => if k == 1 then Accepted else Fails;
    var accepting: nat -> Answer := k => Accepted;
    ops := [op, Sends(op.reg, 0, PLAIN, failing), Sends(op.reg, 0, PLAIN, accepting)];
    hide Run, SendNotice;
    RunThree(consents, ops[0], ops[1], ops[2], env);
    MailedTwice(Run(consents, [op], env), op.reg, 0, t, r, q, failing, accepting);
  }

  /** A recipient with a consent and an address: the email bounces, its fallback fails, and the notice is sent again, by mail. */
  lemma BouncedThenMailed(s: State, reg: R.State, id: nat, t: R.NoticeTemplate, r: Recipient, ref: ConsentRef, bouncing: nat -> Answer, accepting: nat -> Answer)
    requires id in s.notices && s.notices[id].status == Rendered && s.notices[id].deliveries == []
    requires s.notices[id].content.recipients == [r] && s.notices[id].content.templateCode == t.code
    requires t.code in reg.templates && reg.templates[t.code] == t && t.channelPolicy == R.EsignOrMail
    requires r.mailingAddress.Some? && r.consent == Some(ref) && ref in s.consents
    requires s.consents[ref].status == Active && t.noticeClass in s.consents[ref].classes
    requires bouncing(1) == HardBounce && bouncing(2) == Fails && forall k :: accepting(k) == Accepted
    ensures var first := SendNotice(s, reg, id, PLAIN, bouncing).state;
            && id in first.notices
            && var again := SendNotice(first, reg, id, PLAIN, accepting);
               && again.refused == None && id in again.state.notices && again.state.notices[id].status == Sent
               && !Shaped(again.state.notices[id].deliveries)
  {
    var rs := [r];
    var ds := DecideChannel(t, rs, PLAIN, s.consents);
    assert ds == [Decision(r.partyId, EmailLink, true, false, None)] by { ElectronicExact(t, rs, PLAIN, s.consents, 0); }
    var x := Piece(Sending([], s.events, s.consents, true), id, rs, ds[0], bouncing);
    assert SendFrom(Sending([], s.events, s.consents, true), id, rs, ds, 0, bouncing) == x;
    var first := SendNotice(s, reg, id, PLAIN, bouncing).state;
    assert first.notices[id].deliveries == x.deliveries && |x.deliveries| == 1 && x.deliveries[0].bounced;
    assert first.consents[ref].status == Suspect;
    var es := DecideChannel(t, rs, PLAIN, first.consents);
    assert es == [Decision(r.partyId, MailFirstClass, true, false, None)] by { ElectronicExact(t, rs, PLAIN, first.consents, 0); }
    var y0 := Sending(x.deliveries, first.events, first.consents, true);
    var y := Piece(y0, id, rs, es[0], accepting);
    assert SendFrom(y0, id, rs, es, 0, accepting) == y;
    assert |y.deliveries| == 2 && y.deliveries[0].bounced && y.deliveries[1].fallbackOf == None;
    assert !FallbackFor(y.deliveries[0], y.deliveries[0 + 1]);
  }

  /** A run in which a retry leaves a bounced attempt without a fallback of its own. */
  lemma RetryUnshaped(env: Env) returns (consents: map<ConsentRef, Consent>, ops: seq<Op>)
    ensures |ops| == 3 && ops[0].Rendering? && ops[1].Sends? && ops[2].Sends?
    ensures var s := Run(consents, ops, env); 0 in s.notices && s.notices[0].status == Sent && !Shaped(s.notices[0].deliveries)
  {
    var t := R.NoticeTemplate("N", "class", R.EsignOrMail, false);
    var r := Recipient("a", Some("1 A St"), Some("a@b"), Some("c"), false);
    consents := map["c" := Consent(Active, ["class"])];
    var op := Waiting(t, [r], consents, env);
    var bouncing: nat -> Answer := k => if k == 1 then HardBounce else Fails;
    var accepting: nat -> Answer := k => Accepted;
    ops := [op, Sends(op.reg, 0, PLAIN, bouncing), Sends(op.reg, 0, PLAIN, accepting)];
    hide Run, SendNotice, Shaped;
    RunThree(consents, ops[0], ops[1], ops[2], env);
    BouncedThenMailed(Run(consents, [op], env), op.reg, 0, t, r, "c", bouncing, accepting);
  }
}
