/**
 * The notice service (src/notices/service.ts:86-192): render, send through ports that may bounce or fail,
 * proof of mailing, returns, supersession, and the event log all of it is written to.
 */
module NoticeService {
  import opened Basics
  import opened TemplateScan
  import opened TemplateValues
  import C = Checklist
  import opened Channels
  import R = Registry
  import T = NoticeText

  datatype Status = Rendered | Held | Sent | Delivered | Bounced | Returned | Superseded

  datatype Delivery = Delivery(
    attemptNo: nat, partyId: string, channel: Channel, satisfiesTimer: bool,
    bounced: bool, fallbackOf: Option<nat>, mailed: bool, returned: bool, card: Option<string>)

  /** What a notice says and to whom; never edited. */
  datatype Content = Content(templateCode: string, version: string, recipients: seq<Recipient>, payload: Value, rendering: T.Notice, passed: bool)

  datatype Notice = Notice(content: Content, status: Status, deliveries: seq<Delivery>, supersededBy: Option<nat>)

  datatype EventKind = RenderedEvent | HeldEvent | Production(attemptNo: nat) | BouncedEvent(attemptNo: nat) | SentEvent
    | MailedEvent(attemptNo: nat) | ReturnedEvent(attemptNo: nat) | SupersededEvent(replacement: nat)

  datatype Event = Event(notice: nat, kind: EventKind)

  datatype State = State(notices: map<nat, Notice>, nextId: nat, events: seq<Event>, consents: map<ConsentRef, Consent>)

  /** What a port answers to one attempt. */
  datatype Answer = Accepted | HardBounce | Fails

  datatype ServiceError = NoNotice(id: nat) | UnknownTemplate | NoVersionInEffect | BadTemplate(error: TemplateError) | NoticeHeld(id: nat) | NoDelivery(attemptNo: nat) | PortFailed

  /** The formatters and the judge of the content rules. */
  datatype Env = Env(formats: Formats, judge: C.Judge)

  datatype Outcome = Outcome(state: State, refused: Option<ServiceError>)

  // ---- rendering

  function ChecklistPasses(content: R.Content, payload: Value, n: T.Notice, env: Env): bool {
    C.Passed(content.rules, payload, C.Rendered(n.text, n.blocks), env.judge)
  }

  /** A failing block rule holds the notice, and so does the lack of a recipient. */
  function RenderNotice(s: State, reg: R.State, code: string, recipients: seq<Recipient>, payload: Value, asOf: int, env: Env): Outcome {
    if code !in reg.templates then Outcome(s, Some(UnknownTemplate))
    else
      match R.ActiveVersion(reg, code, asOf)
      case None => Outcome(s, Some(NoVersionInEffect))
      case Some(v) =>
        match T.Render(v.content.source, payload, env.formats)
        case Err(e) => Outcome(s, Some(BadTemplate(e)))
        case Ok(n) =>
          var passed := ChecklistPasses(v.content, payload, n, env);
          var status := if passed && recipients != [] then Rendered else Held;
          var notice := Notice(Content(code, v.content.version, recipients, payload, n, passed), status, [], None);
          Outcome(State(s.notices[s.nextId := notice], s.nextId + 1,
                        s.events + [Event(s.nextId, if status == Held then HeldEvent else RenderedEvent)], s.consents), None)
  }

  // ---- sending

  /** What a send has done so far: the notice's deliveries, the log, the consents, and whether a port has failed. */
  datatype Sending = Sending(deliveries: seq<Delivery>, events: seq<Event>, consents: map<ConsentRef, Consent>, ok: bool)

  function FindRecipient(rs: seq<Recipient>, partyId: string): Option<Recipient> {
    if rs == [] then None else if rs[0].partyId == partyId then Some(rs[0]) else FindRecipient(rs[1..], partyId)
  }

  function MailPiece(x: Sending, id: nat, partyId: string, channel: Channel, satisfies: bool, fallbackOf: Option<nat>, answers: nat -> Answer): Sending {
    var k := |x.deliveries| + 1;
    if answers(k) == Fails then x.(ok := false)
    else x.(deliveries := x.deliveries + [Delivery(k, partyId, channel, satisfies, false, fallbackOf, false, false, None)],
            events := x.events + [Event(id, Production(k))])
  }

  function MarkSuspect(consents: map<ConsentRef, Consent>, ref: Option<ConsentRef>): map<ConsentRef, Consent> {
    if ref.Some? && ref.value in consents then consents[ref.value := consents[ref.value].(status := Suspect)] else consents
  }

  /** An electronic delivery; a hard bounce is logged, makes the consent suspect, and is mailed the same day. */
  function ElectronicPiece(x: Sending, id: nat, r: Recipient, d: Decision, answers: nat -> Answer): Sending {
    var k := |x.deliveries| + 1;
    match answers(k)
    case Fails => x.(ok := false)
    case Accepted => x.(deliveries := x.deliveries + [Delivery(k, r.partyId, d.channel, d.satisfiesTimer, false, None, false, false, d.card)])
    case HardBounce =>
      var y := x.(deliveries := x.deliveries + [Delivery(k, r.partyId, d.channel, d.satisfiesTimer, true, None, false, false, d.card)],
                  events := x.events + [Event(id, BouncedEvent(k))],
                  consents := MarkSuspect(x.consents, r.consent));
      MailPiece(y, id, r.partyId, MailFirstClass, true, Some(k), answers)
  }

  function Piece(x: Sending, id: nat, rs: seq<Recipient>, d: Decision, answers: nat -> Answer): Sending {
    var r := FindRecipient(rs, d.partyId);
    if d.held || r.None? then x
    else if IsMail(d.channel) then MailPiece(x, id, r.value.partyId, d.channel, d.satisfiesTimer, None, answers)
    else ElectronicPiece(x, id, r.value, d, answers)
  }

  /** The decisions from the `k`-th on, one after the other, until a port fails. */
  function SendFrom(x: Sending, id: nat, rs: seq<Recipient>, ds: seq<Decision>, k: nat, answers: nat -> Answer): Sending
    requires k <= |ds|
    decreases |ds| - k
  {
    if k == |ds| || !x.ok then x else SendFrom(Piece(x, id, rs, ds[k], answers), id, rs, ds, k + 1, answers)
  }

  predicate AllHeld(ds: seq<Decision>) {
    forall i | 0 <= i < |ds| :: ds[i].held
  }

  function SendNotice(s: State, reg: R.State, id: nat, ctx: Context, answers: nat -> Answer): Outcome {
    if id !in s.notices then Outcome(s, Some(NoNotice(id)))
    else
      var n := s.notices[id];
      if n.status == Held then Outcome(s, Some(NoticeHeld(id)))
      else if n.status != Rendered then Outcome(s, None)
      else if n.content.templateCode !in reg.templates then Outcome(s, Some(UnknownTemplate))
      else
        var ds := DecideChannel(reg.templates[n.content.templateCode], n.content.recipients, ctx, s.consents);
        if AllHeld(ds) then
          Outcome(s.(notices := s.notices[id := n.(status := Held)], events := s.events + [Event(id, HeldEvent)]), None)
        else
          var x := SendFrom(Sending(n.deliveries, s.events, s.consents, true), id, n.content.recipients, ds, 0, answers);
          if !x.ok then
            Outcome(s.(notices := s.notices[id := n.(deliveries := x.deliveries)], events := x.events, consents := x.consents), Some(PortFailed))
          else
            Outcome(s.(notices := s.notices[id := n.(deliveries := x.deliveries, status := Sent)],
                       events := x.events + [Event(id, SentEvent)], consents := x.consents), None)
  }

  // ---- after sending

  function FindDelivery(ds: seq<Delivery>, attemptNo: nat): (i: nat)
    ensures i <= |ds|
    ensures i < |ds| ==> ds[i].attemptNo == attemptNo
  {
    if ds == [] || ds[0].attemptNo == attemptNo then 0 else 1 + FindDelivery(ds[1..], attemptNo)
  }

  function RecordMailed(s: State, id: nat, attemptNo: nat): Outcome {
    if id !in s.notices then Outcome(s, Some(NoNotice(id)))
    else
      var n := s.notices[id];
      var i := FindDelivery(n.deliveries, attemptNo);
      if i == |n.deliveries| then Outcome(s, Some(NoDelivery(attemptNo)))
      else Outcome(s.(notices := s.notices[id := n.(status := Delivered, deliveries := n.deliveries[i := n.deliveries[i].(mailed := true)])],
                      events := s.events + [Event(id, MailedEvent(attemptNo))]), None)
  }

  function RecordReturned(s: State, id: nat, attemptNo: nat): Outcome {
    if id !in s.notices then Outcome(s, Some(NoNotice(id)))
    else
      var n := s.notices[id];
      var i := FindDelivery(n.deliveries, attemptNo);
      if i == |n.deliveries| then Outcome(s, Some(NoDelivery(attemptNo)))
      else Outcome(s.(notices := s.notices[id := n.(status := Returned, deliveries := n.deliveries[i := n.deliveries[i].(returned := true)])],
                      events := s.events + [Event(id, ReturnedEvent(attemptNo))]), None)
  }

  function Supersede(s: State, id: nat, replacement: nat): Outcome {
    if id !in s.notices then Outcome(s, Some(NoNotice(id)))
    else if replacement !in s.notices then Outcome(s, Some(NoNotice(replacement)))
    else Outcome(s.(notices := s.notices[id := s.notices[id].(status := Superseded, supersededBy := Some(replacement))],
                    events := s.events + [Event(id, SupersededEvent(replacement))]), None)
  }

  // ---- runs

  /** A call of the service with the registry as it then is, or a change of the consents by others. */
  datatype Op =
    | Rendering(reg: R.State, code: string, recipients: seq<Recipient>, payload: Value, asOf: int)
    | Sends(reg: R.State, id: nat, ctx: Context, answers: nat -> Answer)
    | MailedProof(id: nat, attemptNo: nat)
    | ReturnedMail(id: nat, attemptNo: nat)
    | Superseding(id: nat, replacement: nat)
    | ConsentsChanged(consents: map<ConsentRef, Consent>)

  function Do(s: State, op: Op, env: Env): Outcome {
    match op
    case Rendering(reg, code, recipients, payload, asOf) => RenderNotice(s, reg, code, recipients, payload, asOf, env)
    case Sends(reg, id, ctx, answers) => SendNotice(s, reg, id, ctx, answers)
    case MailedProof(id, attemptNo) => RecordMailed(s, id, attemptNo)
    case ReturnedMail(id, attemptNo) => RecordReturned(s, id, attemptNo)
    case Superseding(id, replacement) => Supersede(s, id, replacement)
    case ConsentsChanged(consents) => Outcome(s.(consents := consents), None)
  }

  function Init(consents: map<ConsentRef, Consent>): State { State(map[], 0, [], consents) }

  function Run(consents: map<ConsentRef, Consent>, ops: seq<Op>, env: Env): State {
    if ops == [] then Init(consents) else Do(Run(consents, ops[..|ops| - 1], env), ops[|ops| - 1], env).state
  }

  // ---- the log determines every status

  /** The status an event puts its notice in, if any. */
  function StatusAfter(kind: EventKind): Option<Status> {
    match kind
    case RenderedEvent => Some(Rendered)
    case HeldEvent => Some(Held)
    case SentEvent => Some(Sent)
    case MailedEvent(_) => Some(Delivered)
    case ReturnedEvent(_) => Some(Returned)
    case SupersededEvent(_) => Some(Superseded)
    case Production(_) => None
    case BouncedEvent(_) => None
  }

  /** The status a notice's own events leave it in. */
  function Replay(events: seq<Event>, id: nat): Option<Status> {
    if events == [] then None
    else
      var e := events[|events| - 1];
      if e.notice == id && StatusAfter(e.kind).Some? then StatusAfter(e.kind) else Replay(events[..|events| - 1], id)
  }

  lemma ReplaySnoc(events: seq<Event>, e: Event, id: nat)
    ensures Replay(events + [e], id) == if e.notice == id && StatusAfter(e.kind).Some? then StatusAfter(e.kind) else Replay(events, id)
  {
    assert (events + [e])[..|events|] == events;
  }

  /** Attempts are numbered 1, 2, ...; a delivery means the checklist passed and there was someone to send to. */
  ghost predicate NoticeOk(n: Notice) {
    && (forall i | 0 <= i < |n.deliveries| :: n.deliveries[i].attemptNo == i + 1)
    && (n.deliveries != [] || n.status == Rendered ==> n.content.passed && n.content.recipients != [])
    && n.status != Bounced
  }

  ghost predicate Inv(s: State) {
    && (forall id | id in s.notices :: id < s.nextId && NoticeOk(s.notices[id]) && Replay(s.events, id) == Some(s.notices[id].status))
    && (forall id | id >= s.nextId :: Replay(s.events, id) == None)
  }

  // ---- what one send keeps

  /** A send appends deliveries with the next numbers, and only events of its own notice that leave the status alone. */
  ghost predicate Grows(x: Sending, y: Sending, id: nat) {
    && x.deliveries <= y.deliveries
    && (forall i | |x.deliveries| <= i < |y.deliveries| :: y.deliveries[i].attemptNo == i + 1)
    && (forall j :: Replay(y.events, j) == Replay(x.events, j))
  }

  lemma PieceGrows(x: Sending, id: nat, rs: seq<Recipient>, d: Decision, answers: nat -> Answer)
    ensures Grows(x, Piece(x, id, rs, d, answers), id)
  {
    forall events, k, j ensures Replay(events + [Event(id, Production(k))], j) == Replay(events, j) && Replay(events + [Event(id, BouncedEvent(k))], j) == Replay(events, j) {
      ReplaySnoc(events, Event(id, Production(k)), j);
      ReplaySnoc(events, Event(id, BouncedEvent(k)), j);
    }
    hide Replay, FindRecipient, MarkSuspect;
  }

  lemma {:induction false} SendGrows(x: Sending, id: nat, rs: seq<Recipient>, ds: seq<Decision>, k: nat, answers: nat -> Answer)
    requires k <= |ds|
    ensures Grows(x, SendFrom(x, id, rs, ds, k, answers), id)
    decreases |ds| - k
  {
    hide Piece, Replay;
    if k < |ds| && x.ok {
      PieceGrows(x, id, rs, ds[k], answers);
      SendGrows(Piece(x, id, rs, ds[k], answers), id, rs, ds, k + 1, answers);
    }
  }

  // ---- what every run keeps

  /** A notice's new version after one more event of its own. */
  lemma OneNotice(s: State, id: nat, n: Notice, kind: EventKind)
    requires Inv(s) && id < s.nextId && NoticeOk(n) && StatusAfter(kind) == Some(n.status)
    ensures Inv(s.(notices := s.notices[id := n], events := s.events + [Event(id, kind)]))
  {
    hide NoticeOk, Replay;
    forall j ensures Replay(s.events + [Event(id, kind)], j) == if j == id then Some(n.status) else Replay(s.events, j) {
      ReplaySnoc(s.events, Event(id, kind), j);
    }
  }

  lemma RenderInv(s: State, reg: R.State, code: string, recipients: seq<Recipient>, payload: Value, asOf: int, env: Env)
    requires Inv(s)
    ensures Inv(RenderNotice(s, reg, code, recipients, payload, asOf, env).state)
  {
    hide Replay, ChecklistPasses;
    hide R.ActiveVersion, T.Render;
    var t := RenderNotice(s, reg, code, recipients, payload, asOf, env).state;
    if s.nextId in t.notices {
      var n := t.notices[s.nextId];
      var kind := if n.status == Held then HeldEvent else RenderedEvent;
      forall j ensures Replay(s.events + [Event(s.nextId, kind)], j) == if j == s.nextId then Some(n.status) else Replay(s.events, j) {
        ReplaySnoc(s.events, Event(s.nextId, kind), j);
      }
    }
  }

  lemma SendInv(s: State, reg: R.State, id: nat, ctx: Context, answers: nat -> Answer)
    requires Inv(s)
    ensures Inv(SendNotice(s, reg, id, ctx, answers).state)
  {
    hide Replay, SendFrom, DecideChannel;
    if id in s.notices && s.notices[id].status == Rendered && s.notices[id].content.templateCode in reg.templates {
      var n := s.notices[id];
      var ds := DecideChannel(reg.templates[n.content.templateCode], n.content.recipients, ctx, s.consents);
      if AllHeld(ds) {
        OneNotice(s, id, n.(status := Held), HeldEvent);
      } else {
        var x0 := Sending(n.deliveries, s.events, s.consents, true);
        var x := SendFrom(x0, id, n.content.recipients, ds, 0, answers);
        SendGrows(x0, id, n.content.recipients, ds, 0, answers);
        GrowsOk(n, x0, x, id);
        var t := s.(notices := s.notices[id := n.(deliveries := x.deliveries)], events := x.events, consents := x.consents);
        assert Inv(t);
        if x.ok {
          OneNotice(t, id, n.(deliveries := x.deliveries, status := Sent), SentEvent);
          assert t.notices[id := n.(deliveries := x.deliveries, status := Sent)] == s.notices[id := n.(deliveries := x.deliveries, status := Sent)];
        }
      }
    }
  }

  lemma GrowsOk(n: Notice, x: Sending, y: Sending, id: nat)
    requires NoticeOk(n) && n.status == Rendered && x.deliveries == n.deliveries && Grows(x, y, id)
    ensures NoticeOk(n.(deliveries := y.deliveries)) && NoticeOk(n.(deliveries := y.deliveries, status := Sent))
  {
    hide Replay;
    forall i | 0 <= i < |y.deliveries| ensures y.deliveries[i].attemptNo == i + 1 {
      if i < |x.deliveries| { assert y.deliveries[i] == x.deliveries[i]; }
    }
  }

  lemma DoInv(s: State, op: Op, env: Env)
    requires Inv(s)
    ensures Inv(Do(s, op, env).state)
  {
    hide RenderNotice, SendNotice, Replay;
    match op
    case Rendering(reg, code, recipients, payload, asOf) => RenderInv(s, reg, code, recipients, payload, asOf, env);
    case Sends(reg, id, ctx, answers) => SendInv(s, reg, id, ctx, answers);
    case MailedProof(id, attemptNo) =>
      if id in s.notices {
        var n := s.notices[id];
        var i := FindDelivery(n.deliveries, attemptNo);
        if i < |n.deliveries| { OneNotice(s, id, n.(status := Delivered, deliveries := n.deliveries[i := n.deliveries[i].(mailed := true)]), MailedEvent(attemptNo)); }
      }
    case ReturnedMail(id, attemptNo) =>
      if id in s.notices {
        var n := s.notices[id];
        var i := FindDelivery(n.deliveries, attemptNo);
        if i < |n.deliveries| { OneNotice(s, id, n.(status := Returned, deliveries := n.deliveries[i := n.deliveries[i].(returned := true)]), ReturnedEvent(attemptNo)); }
      }
    case Superseding(id, replacement) =>
      if id in s.notices && replacement in s.notices {
        OneNotice(s, id, s.notices[id].(status := Superseded, supersededBy := Some(replacement)), SupersededEvent(replacement));
      }
    case ConsentsChanged(_) =>
  }

  /**
   * In every run, every notice's status is what its own events in the log leave it in; no notice is ever
   * `bounced`; attempts are numbered from 1 without gaps; and a notice with any delivery passed its
   * checklist and had a recipient.
   */
  lemma {:induction false} RunInv(consents: map<ConsentRef, Consent>, ops: seq<Op>, env: Env)
    ensures Inv(Run(consents, ops, env))
  {
    hide Inv, Do;
    if ops == [] {
      InitInv(consents);
    } else {
      RunInv(consents, ops[..|ops| - 1], env);
      DoInv(Run(consents, ops[..|ops| - 1], env), ops[|ops| - 1], env);
    }
  }

  lemma InitInv(consents: map<ConsentRef, Consent>)
    ensures Inv(Init(consents))
  {
  }

  /** Content stays, and deliveries only grow or are marked mailed or returned. */
  ghost predicate Kept(s: State, t: State) {
    forall id | id in s.notices :: id in t.notices && NoticeKept(s.notices[id], t.notices[id])
  }

  ghost predicate NoticeKept(n: Notice, m: Notice) {
    && m.content == n.content
    && |n.deliveries| <= |m.deliveries|
    && forall i | 0 <= i < |n.deliveries| :: SameAttempt(n.deliveries[i], m.deliveries[i])
  }

  ghost predicate SameAttempt(d: Delivery, e: Delivery) {
    e == d.(mailed := e.mailed, returned := e.returned) && (d.mailed ==> e.mailed) && (d.returned ==> e.returned)
  }

  lemma SendKept(s: State, reg: R.State, id: nat, ctx: Context, answers: nat -> Answer)
    ensures Kept(s, SendNotice(s, reg, id, ctx, answers).state)
  {
    hide SendFrom, DecideChannel, Replay;
    if id in s.notices && s.notices[id].content.templateCode in reg.templates {
      var n := s.notices[id];
      var ds := DecideChannel(reg.templates[n.content.templateCode], n.content.recipients, ctx, s.consents);
      SendGrows(Sending(n.deliveries, s.events, s.consents, true), id, n.content.recipients, ds, 0, answers);
    }
  }

  lemma RenderKept(s: State, reg: R.State, code: string, recipients: seq<Recipient>, payload: Value, asOf: int, env: Env)
    requires Inv(s)
    ensures Kept(s, RenderNotice(s, reg, code, recipients, payload, asOf, env).state)
  {
    hide Replay, ChecklistPasses, NoticeOk;
    hide R.ActiveVersion, T.Render;
  }

  lemma DoKept(s: State, op: Op, env: Env)
    requires Inv(s)
    ensures Kept(s, Do(s, op, env).state)
  {
    hide SendNotice, RenderNotice, Inv;
    match op
    case Rendering(reg, code, recipients, payload, asOf) => RenderKept(s, reg, code, recipients, payload, asOf, env);
    case Sends(reg, id, ctx, answers) => SendKept(s, reg, id, ctx, answers);
    case _ =>
  }

  /** The payload, the rendering, the recipients and the verdict of a notice never change, whatever is done later. */
  lemma {:induction false} ContentNeverChanges(consents: map<ConsentRef, Consent>, ops: seq<Op>, more: seq<Op>, env: Env)
    ensures Kept(Run(consents, ops, env), Run(consents, ops + more, env))
    decreases |more|
  {
    hide Do, Inv, Kept;
    if more == [] {
      assert ops + [] == ops;
      KeptSame(Run(consents, ops, env));
    } else {
      var init, last, all := more[..|more| - 1], more[|more| - 1], ops + more;
      assert all[..|all| - 1] == ops + init && all[|all| - 1] == last;
      ContentNeverChanges(consents, ops, init, env);
      RunInv(consents, ops + init, env);
      DoKept(Run(consents, ops + init, env), last, env);
      KeptOn(Run(consents, ops, env), Run(consents, ops + init, env), Run(consents, all, env));
    }
  }

  lemma KeptSame(s: State)
    ensures Kept(s, s)
  {
  }

  lemma KeptOn(s: State, t: State, u: State)
    requires Kept(s, t) && Kept(t, u)
    ensures Kept(s, u)
  {
    forall id | id in s.notices ensures id in u.notices && NoticeKept(s.notices[id], u.notices[id]) {
      assert NoticeKept(s.notices[id], t.notices[id]) && NoticeKept(t.notices[id], u.notices[id]);
      forall i | 0 <= i < |s.notices[id].deliveries| ensures SameAttempt(s.notices[id].deliveries[i], u.notices[id].deliveries[i]) {
        assert SameAttempt(s.notices[id].deliveries[i], t.notices[id].deliveries[i]);
        assert SameAttempt(t.notices[id].deliveries[i], u.notices[id].deliveries[i]);
      }
    }
  }

  // ---- held notices

  /** No port fails in this operation. */
  ghost predicate PortsAnswer(op: Op) {
    op.Sends? ==> forall k :: op.answers(k) != Fails
  }

  lemma {:induction false} SendAnswered(x: Sending, id: nat, rs: seq<Recipient>, ds: seq<Decision>, k: nat, answers: nat -> Answer)
    requires k <= |ds| && x.ok && forall a :: answers(a) != Fails
    ensures SendFrom(x, id, rs, ds, k, answers).ok
    decreases |ds| - k
  {
    hide FindRecipient;
    if k < |ds| {
      SendAnswered(Piece(x, id, rs, ds[k], answers), id, rs, ds, k + 1, answers);
    }
  }

  /** What a send of this notice would do, from its first decision on. */
  function SendingOf(s: State, t: R.NoticeTemplate, id: nat, ctx: Context, answers: nat -> Answer): Sending
    requires id in s.notices
  {
    var n := s.notices[id];
    SendFrom(Sending(n.deliveries, s.events, s.consents, true), id, n.content.recipients, DecideChannel(t, n.content.recipients, ctx, s.consents), 0, answers)
  }

  /** A send of a waiting notice for which some decision goes out. */
  predicate SendsOut(s: State, op: Op) {
    && op.Sends? && op.id in s.notices && s.notices[op.id].status == Rendered
    && s.notices[op.id].content.templateCode in op.reg.templates
    && !AllHeld(DecideChannel(op.reg.templates[s.notices[op.id].content.templateCode], s.notices[op.id].content.recipients, op.ctx, s.consents))
  }

  /** What a send that goes out comes to. */
  function Outgoing(s: State, op: Op): Sending
    requires SendsOut(s, op)
  {
    SendingOf(s, op.reg.templates[s.notices[op.id].content.templateCode], op.id, op.ctx, op.answers)
  }

  /** A port fails after an earlier attempt of the same send went out. */
  predicate FailsMidway(s: State, op: Op) {
    SendsOut(s, op) && !Outgoing(s, op).ok && |Outgoing(s, op).deliveries| > |s.notices[op.id].deliveries|
  }

  /** Held notices have no deliveries. */
  ghost predicate HeldClean(s: State) {
    forall id | id in s.notices && s.notices[id].status == Held :: s.notices[id].deliveries == []
  }

  /** A send of a waiting notice that some earlier send has partly delivered, and none of whose recipients can be reached now. */
  predicate Stranded(s: State, op: Op) {
    && op.Sends? && op.id in s.notices && s.notices[op.id].status == Rendered && s.notices[op.id].deliveries != []
    && s.notices[op.id].content.templateCode in op.reg.templates
    && forall r | r in s.notices[op.id].content.recipients :: !Reachable(op.reg.templates[s.notices[op.id].content.templateCode], r, op.ctx, s.consents)
  }

  lemma AllHeldExact(t: R.NoticeTemplate, rs: seq<Recipient>, ctx: Context, consents: map<ConsentRef, Consent>)
    ensures AllHeld(DecideChannel(t, rs, ctx, consents)) <==> forall r | r in rs :: !Reachable(t, r, ctx, consents)
  {
    hide Reachable, DecideChannel;
    var ds := DecideChannel(t, rs, ctx, consents);
    forall i | 0 <= i < |rs| ensures ds[i].held <==> !Reachable(t, rs[i], ctx, consents) {
      HeldExact(t, rs, ctx, consents, i);
    }
    if AllHeld(ds) {
      forall r | r in rs ensures !Reachable(t, r, ctx, consents) {
        var i :| 0 <= i < |rs| && rs[i] == r;
        assert ds[i].held;
      }
    }
  }

  lemma HeldStep(s: State, op: Op, env: Env)
    requires HeldClean(s)
    ensures HeldClean(Do(s, op, env).state) <==> !Stranded(s, op)
  {
    hide SendFrom, DecideChannel, ChecklistPasses, Reachable;
    hide R.ActiveVersion, T.Render;
    if op.Sends? && op.id in s.notices && s.notices[op.id].content.templateCode in op.reg.templates {
      AllHeldExact(op.reg.templates[s.notices[op.id].content.templateCode], s.notices[op.id].content.recipients, op.ctx, s.consents);
    }
    if Stranded(s, op) {
      var t := Do(s, op, env).state;
      assert op.id in t.notices && t.notices[op.id].status == Held;
    }
  }

  /** Held notices are without deliveries at every moment of a run. */
  ghost predicate AlwaysHeldClean(consents: map<ConsentRef, Consent>, ops: seq<Op>, env: Env) {
    (ops != [] ==> AlwaysHeldClean(consents, ops[..|ops| - 1], env)) && HeldClean(Run(consents, ops, env))
  }

  predicate NeverStranded(consents: map<ConsentRef, Consent>, ops: seq<Op>, env: Env) {
    ops != [] ==>
      && NeverStranded(consents, ops[..|ops| - 1], env)
      && !Stranded(Run(consents, ops[..|ops| - 1], env), ops[|ops| - 1])
  }

  /**
   * All through a run no held notice has a delivery exactly when no send of it meets a partly delivered
   * waiting notice none of whose recipients can be reached any more.
   */
  lemma {:induction false} HeldHasNoDelivery(consents: map<ConsentRef, Consent>, ops: seq<Op>, env: Env)
    ensures AlwaysHeldClean(consents, ops, env) <==> NeverStranded(consents, ops, env)
  {
    hide Do, Stranded, HeldClean;
    if ops == [] {
      NothingHeld(consents);
    } else {
      var init := ops[..|ops| - 1];
      HeldHasNoDelivery(consents, init, env);
      if AlwaysHeldClean(consents, init, env) { HeldStep(Run(consents, init, env), ops[|ops| - 1], env); }
    }
  }

  lemma NothingHeld(consents: map<ConsentRef, Consent>)
    ensures HeldClean(Init(consents))
  {
  }

  /** While the ports answer every attempt, no send fails midway. */
  lemma AnsweredNeverFails(s: State, op: Op)
    requires PortsAnswer(op)
    ensures !FailsMidway(s, op)
  {
    hide SendFrom, DecideChannel;
    if op.Sends? && op.id in s.notices && s.notices[op.id].content.templateCode in op.reg.templates {
      var n := s.notices[op.id];
      var ds := DecideChannel(op.reg.templates[n.content.templateCode], n.content.recipients, op.ctx, s.consents);
      SendAnswered(Sending(n.deliveries, s.events, s.consents, true), op.id, n.content.recipients, ds, 0, op.answers);
    }
  }

  /**
   * When a port fails, a notice can be held with a delivery: the email bounces, the fallback mail to a
   * recipient without an address is refused by the port, and the next send finds every recipient unreachable.
   */
  lemma HeldWithDelivery(s: State, reg: R.State, id: nat, t: R.NoticeTemplate, r: Recipient, ref: ConsentRef, ctx: Context, bouncing: nat -> Answer, any: nat -> Answer)
    requires id in s.notices && s.notices[id].status == Rendered && s.notices[id].deliveries == []
    requires s.notices[id].content.recipients == [r] && s.notices[id].content.templateCode == t.code
    requires t.code in reg.templates && reg.templates[t.code] == t && t.channelPolicy == R.EsignOrMail
    requires r.mailingAddress == None && r.consent == Some(ref) && ref in s.consents
    requires s.consents[ref].status == Active && t.noticeClass in s.consents[ref].classes
    requires ctx == Context(false, false, false, map[]) && bouncing(1) == HardBounce && bouncing(2) == Fails
    ensures var first := SendNotice(s, reg, id, ctx, bouncing);
            var second := SendNotice(first.state, reg, id, ctx, any);
            && first.refused == Some(PortFailed)
            && second.refused == None
            && second.state.notices[id].status == Held
            && |second.state.notices[id].deliveries| == 1
  {
    var n := s.notices[id];
    var ds := DecideChannel(t, [r], ctx, s.consents);
    assert ds == [Decision(r.partyId, EmailLink, true, false, None)] by { ElectronicExact(t, [r], ctx, s.consents, 0); }
    var x0 := Sending([], s.events, s.consents, true);
    var x := Piece(x0, id, [r], ds[0], bouncing);
    assert SendFrom(x0, id, [r], ds, 0, bouncing) == x;
    assert |x.deliveries| == 1 && !x.ok;
    assert x.consents[ref].status == Suspect;
    var ds2 := DecideChannel(t, [r], ctx, x.consents);
    assert ds2[0].held by { ElectronicExact(t, [r], ctx, x.consents, 0); }
  }
}
