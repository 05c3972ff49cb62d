/**
 * Where the notices of a run come from (src/notices/service.ts:96-119): each is the rendering of its own
 * payload by a version that was active when some call of `render` asked for it.
 */
module NoticeOrigins {
  import opened Basics
  import opened TemplateScan
  import opened TemplateValues
  import opened TemplateEngine
  import C = Checklist
  import opened Channels
  import opened NoticeService
  import R = Registry
  import T = NoticeText

  /** `v` is a version of the code, approved, in effect on the date, and of those the one that starts latest. */
  ghost predicate ActiveIn(reg: R.State, code: string, asOf: int, v: R.Version) {
    && code in reg.versions && v in reg.versions[code]
    && v.status == R.CounselApproved
    && v.content.effectiveFrom <= asOf && (v.effectiveTo.Some? ==> asOf <= v.effectiveTo.value)
    && forall w | w in reg.versions[code] && w.status == R.CounselApproved && w.content.effectiveFrom <= asOf
         && (w.effectiveTo.Some? ==> asOf <= w.effectiveTo.value) :: w.content.effectiveFrom <= v.content.effectiveFrom
  }

  /** Every rule that no later rule with its id replaces passes or only warns. */
  ghost predicate NothingBlocks(rules: seq<C.Rule>, payload: Value, n: T.Notice, judge: C.Judge) {
    forall i | 0 <= i < |rules| && (forall j | i < j < |rules| :: rules[j].id != rules[i].id) ::
      C.Verdict(rules, i, payload, C.Rendered(n.text, n.blocks), judge).passed || rules[i].severity == C.WarnSeverity
  }

  /**
   * What the call `op` stores with the version `v`: its own code, recipients and payload, the number of the
   * version, the rendering of that payload by the version's source, and the verdict of the version's rules on it.
   */
  ghost predicate MadeBy(n: Content, op: Op, v: R.Version, env: Env) {
    && op.Rendering? && op.code in op.reg.templates
    && ActiveIn(op.reg, op.code, op.asOf, v)
    && n.templateCode == op.code && n.recipients == op.recipients && n.payload == op.payload
    && n.version == v.content.version
    && T.Render(v.content.source, n.payload, env.formats) == Ok(n.rendering)
    && (n.passed <==> NothingBlocks(v.content.rules, n.payload, n.rendering, env.judge))
  }

  lemma ActiveIs(reg: R.State, code: string, asOf: int)
    ensures var a := R.ActiveVersion(reg, code, asOf);
            && (a.Some? ==> ActiveIn(reg, code, asOf, a.value))
            && (a.None? ==> forall v :: !ActiveIn(reg, code, asOf, v))
  {
    hide R.ActiveVersion;
    R.ActiveVersionExact(reg, code, asOf);
  }

  lemma PassesWhen(v: R.Content, payload: Value, n: T.Notice, env: Env)
    ensures ChecklistPasses(v, payload, n, env) <==> NothingBlocks(v.rules, payload, n, env.judge)
  {
    hide C.Passed, C.ResultsAfter;
    var rendered := C.Rendered(n.text, n.blocks);
    C.PassedExact(v.rules, payload, rendered, env.judge);
    forall i | 0 <= i < |v.rules| ensures C.Verdict(v.rules, i, payload, rendered, env.judge).severity == v.rules[i].severity {
      C.SkippedExact(v.rules, i, payload, rendered, env.judge);
    }
    hide C.Verdict;
    forall i | 0 <= i < |v.rules| ensures C.IsLast(v.rules, i) <==> forall j | i < j < |v.rules| :: v.rules[j].id != v.rules[i].id {
    }
  }

  /**
   * A call of `render` is refused exactly when the template is unknown, no version is active or the source does
   * not render; otherwise it stores one new notice, held exactly when a rule blocks or there is nobody to send
   * it to, and logs that one event.
   */
  lemma RenderOutcome(s: State, op: Op, env: Env)
    requires op.Rendering?
    ensures var r, a := Do(s, op, env), R.ActiveVersion(op.reg, op.code, op.asOf);
            && (op.code !in op.reg.templates ==> r == Outcome(s, Some(UnknownTemplate)))
            && (op.code in op.reg.templates && (forall v :: !ActiveIn(op.reg, op.code, op.asOf, v)) ==> r == Outcome(s, Some(NoVersionInEffect)))
            && (op.code in op.reg.templates && a.Some? && T.Render(a.value.content.source, op.payload, env.formats).Err? ==>
                  r == Outcome(s, Some(BadTemplate(T.Render(a.value.content.source, op.payload, env.formats).error))))
            && (op.code in op.reg.templates && a.Some? && T.Render(a.value.content.source, op.payload, env.formats).Ok? ==>
                  var n := if s.nextId in r.state.notices then r.state.notices[s.nextId] else Notice(Content("", "", [], Null, T.Notice("", "", []), false), Held, [], None);
                  && r.refused == None && r.state.nextId == s.nextId + 1 && r.state.consents == s.consents
                  && r.state.notices == s.notices[s.nextId := n]
                  && MadeBy(n.content, op, a.value, env)
                  && n.deliveries == [] && n.supersededBy == None
                  && (n.status == Held <==> !n.content.passed || |op.recipients| == 0) && (n.status != Held ==> n.status == Rendered)
                  && r.state.events == s.events + [Event(s.nextId, if n.status == Held then HeldEvent else RenderedEvent)])
  {
    hide T.Render, R.ActiveVersion, ChecklistPasses, ActiveIn, NothingBlocks;
    ActiveIs(op.reg, op.code, op.asOf);
    var a := R.ActiveVersion(op.reg, op.code, op.asOf);
    if a.Some? && T.Render(a.value.content.source, op.payload, env.formats).Ok? {
      PassesWhen(a.value.content, op.payload, T.Render(a.value.content.source, op.payload, env.formats).value, env);
    }
  }

  /** Only `render` makes notices. */
  lemma NewNotice(s: State, op: Op, env: Env, id: nat) returns (v: R.Version)
    requires Inv(s) && id !in s.notices && id in Do(s, op, env).state.notices
    ensures MadeBy(Do(s, op, env).state.notices[id].content, op, v, env)
  {
    hide T.Render, R.ActiveVersion, MadeBy, SendFrom, DecideChannel, Inv, ChecklistPasses;
    if op.Rendering? {
      RenderOutcome(s, op, env);
      v := R.ActiveVersion(op.reg, op.code, op.asOf).value;
    }
  }

  /**
   * Every notice of every run was made by one call of the run: the one before which it was not there and after
   * which it was.  Its code, recipients and payload are that call's; its rendering is of that payload, by the
   * source of a version that was active in the registry of the call; its version is that version's; and it
   * passed exactly when no rule of that version that is the last of its id blocks on that rendering.
   */
  lemma {:induction false} EveryNotice(consents: map<ConsentRef, Consent>, ops: seq<Op>, env: Env, id: nat) returns (k: nat, v: R.Version)
    requires id in Run(consents, ops, env).notices
    ensures k < |ops| && MadeBy(Run(consents, ops, env).notices[id].content, ops[k], v, env)
    ensures id !in Run(consents, ops[..k], env).notices && id in Run(consents, ops[..k + 1], env).notices
    decreases |ops|
  {
    hide Do, Inv, MadeBy;
    var init, last := ops[..|ops| - 1], ops[|ops| - 1];
    var s := Run(consents, init, env);
    RunInv(consents, init, env);
    assert ops[..|init| + 1] == ops;
    if id in s.notices {
      k, v := EveryNotice(consents, init, env, id);
      assert init[..k] == ops[..k] && init[..k + 1] == ops[..k + 1];
      DoKept(s, last, env);
      assert NoticeKept(s.notices[id], Do(s, last, env).state.notices[id]);
    } else {
      k := |init|;
      v := NewNotice(s, last, env, id);
    }
  }

  // ---- what superseded a notice

  /** The replacement the last supersession of a notice in the log names. */
  function Replacement(events: seq<Event>, id: nat): Option<nat> {
    if events == [] then None
    else
      var e := events[|events| - 1];
      if e.notice == id && e.kind.SupersededEvent? then Some(e.kind.replacement) else Replacement(events[..|events| - 1], id)
  }

  lemma ReplacementSnoc(events: seq<Event>, e: Event, id: nat)
    ensures Replacement(events + [e], id) == if e.notice == id && e.kind.SupersededEvent? then Some(e.kind.replacement) else Replacement(events, id)
  {
    assert (events + [e])[..|events|] == events;
  }

  lemma PieceSupersedes(x: Sending, id: nat, rs: seq<Recipient>, d: Decision, answers: nat -> Answer, j: nat)
    ensures Replacement(Piece(x, id, rs, d, answers).events, j) == Replacement(x.events, j)
  {
    forall events, k ensures Replacement(events + [Event(id, Production(k))], j) == Replacement(events, j) == Replacement(events + [Event(id, BouncedEvent(k))], j) {
      ReplacementSnoc(events, Event(id, Production(k)), j);
      ReplacementSnoc(events, Event(id, BouncedEvent(k)), j);
    }
    hide Replacement, FindRecipient, MarkSuspect;
  }

  lemma {:induction false} SendSupersedes(x: Sending, id: nat, rs: seq<Recipient>, ds: seq<Decision>, k: nat, answers: nat -> Answer, j: nat)
    requires k <= |ds|
    ensures Replacement(SendFrom(x, id, rs, ds, k, answers).events, j) == Replacement(x.events, j)
    decreases |ds| - k
  {
    hide Piece, Replacement;
    if k < |ds| && x.ok {
      PieceSupersedes(x, id, rs, ds[k], answers, j);
      SendSupersedes(Piece(x, id, rs, ds[k], answers), id, rs, ds, k + 1, answers, j);
    }
  }

  /** A notice is superseded by the one its last supersession names, which exists, and by none without one. */
  ghost predicate Rightly(n: Notice, named: Option<nat>, notices: map<nat, Notice>) {
    && n.supersededBy == named
    && (named.Some? ==> named.value in notices)
    && (n.status == Superseded ==> named.Some?)
  }

  ghost predicate SupersededRight(s: State) {
    && (forall id | id in s.notices :: Rightly(s.notices[id], Replacement(s.events, id), s.notices))
    && (forall id | id !in s.notices :: Replacement(s.events, id) == None)
  }

  /** A notice's new version after one more event of its own. */
  lemma OneRight(s: State, id: nat, n: Notice, kind: EventKind, next: nat)
    requires SupersededRight(s)
    requires Rightly(n, if kind.SupersededEvent? then Some(kind.replacement) else Replacement(s.events, id), s.notices[id := n])
    ensures SupersededRight(State(s.notices[id := n], next, s.events + [Event(id, kind)], s.consents))
  {
    hide Replacement;
    forall j ensures Replacement(s.events + [Event(id, kind)], j) == if j == id && kind.SupersededEvent? then Some(kind.replacement) else Replacement(s.events, j) {
      ReplacementSnoc(s.events, Event(id, kind), j);
    }
  }

  lemma SendRight(s: State, op: Op, env: Env)
    requires SupersededRight(s) && op.Sends?
    ensures SupersededRight(Do(s, op, env).state)
  {
    hide SendFrom, DecideChannel, Replacement;
    if op.id in s.notices && s.notices[op.id].status == Rendered && s.notices[op.id].content.templateCode in op.reg.templates {
      var n := s.notices[op.id];
      var ds := DecideChannel(op.reg.templates[n.content.templateCode], n.content.recipients, op.ctx, s.consents);
      var before := Sending(n.deliveries, s.events, s.consents, true);
      if AllHeld(ds) {
        OneRight(s, op.id, n.(status := Held), HeldEvent, s.nextId);
      } else {
        var x := SendFrom(before, op.id, n.content.recipients, ds, 0, op.answers);
        forall j ensures Replacement(x.events, j) == Replacement(s.events, j) {
          SendSupersedes(before, op.id, n.content.recipients, ds, 0, op.answers, j);
        }
        var sent := n.(deliveries := x.deliveries);
        var u := s.(notices := s.notices[op.id := sent], events := x.events, consents := x.consents);
        assert SupersededRight(u);
        OneRight(u, op.id, sent.(status := Sent), SentEvent, u.nextId);
        assert u.notices[op.id := sent.(status := Sent)] == s.notices[op.id := sent.(status := Sent)];
      }
    }
  }

  lemma DoRight(s: State, op: Op, env: Env)
    requires Inv(s) && SupersededRight(s)
    ensures SupersededRight(Do(s, op, env).state)
  {
    hide RenderNotice, SendNotice, Replacement, MadeBy, T.Render, R.ActiveVersion, ActiveIn, NoticeOk, Replay;
    match op
    case Rendering(_, _, _, _, _) => RenderRight(s, op, env);
    case Sends(_, _, _, _) => SendRight(s, op, env);
    case MailedProof(id, attemptNo) =>
      if id in s.notices {
        var n := s.notices[id];
        var i := FindDelivery(n.deliveries, attemptNo);
        if i < |n.deliveries| { OneRight(s, id, n.(status := Delivered, deliveries := n.deliveries[i := n.deliveries[i].(mailed := true)]), MailedEvent(attemptNo), s.nextId); }
      }
    case ReturnedMail(id, attemptNo) =>
      if id in s.notices {
        var n := s.notices[id];
        var i := FindDelivery(n.deliveries, attemptNo);
        if i < |n.deliveries| { OneRight(s, id, n.(status := Returned, deliveries := n.deliveries[i := n.deliveries[i].(returned := true)]), ReturnedEvent(attemptNo), s.nextId); }
      }
    case Superseding(id, replacement) =>
      if id in s.notices && replacement in s.notices {
        OneRight(s, id, s.notices[id].(status := Superseded, supersededBy := Some(replacement)), SupersededEvent(replacement), s.nextId);
      }
    case ConsentsChanged(_) =>
  }

  lemma RenderRight(s: State, op: Op, env: Env)
    requires Inv(s) && SupersededRight(s) && op.Rendering?
    ensures SupersededRight(Do(s, op, env).state)
  {
    hide Do, Replacement, MadeBy, T.Render, R.ActiveVersion, ActiveIn, NoticeOk, Replay;
    var t := Do(s, op, env).state;
    RenderOutcome(s, op, env);
    ActiveIs(op.reg, op.code, op.asOf);
    if t.nextId != s.nextId {
      var n := t.notices[s.nextId];
      OneRight(s, s.nextId, n, if n.status == Held then HeldEvent else RenderedEvent, t.nextId);
    }
  }

  /**
   * In every run a notice is superseded by the notice that its last supersession in the log names, a notice of
   * the run, and by none when the log has no supersession of it; a superseded notice has one.
   */
  lemma {:induction false} SupersededExact(consents: map<ConsentRef, Consent>, ops: seq<Op>, env: Env)
    ensures SupersededRight(Run(consents, ops, env))
  {
    hide Do, Inv, SupersededRight;
    if ops == [] {
      NothingSuperseded(consents);
    } else {
      SupersededExact(consents, ops[..|ops| - 1], env);
      RunInv(consents, ops[..|ops| - 1], env);
      DoRight(Run(consents, ops[..|ops| - 1], env), ops[|ops| - 1], env);
    }
  }

  lemma NothingSuperseded(consents: map<ConsentRef, Consent>)
    ensures SupersededRight(Init(consents))
  {
  }
}
