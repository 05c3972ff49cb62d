/** The event log of the notice service and its deliveries tell the same story (src/notices/service.ts:122-192). */
module NoticeLog {
  import opened Basics
  import opened TemplateValues
  import opened Channels
  import opened NoticeService
  import R = Registry
  import T = NoticeText

  /** What a delivery says an event of each kind reports. */
  predicate Reports(kind: EventKind, ds: seq<Delivery>) {
    match kind
    case Production(k) => 1 <= k <= |ds| && IsMail(ds[k - 1].channel)
    case BouncedEvent(k) => 1 <= k <= |ds| && ds[k - 1].bounced
    case MailedEvent(k) => 1 <= k <= |ds| && ds[k - 1].mailed
    case ReturnedEvent(k) => 1 <= k <= |ds| && ds[k - 1].returned
    case _ => true
  }

  /** Events about single attempts. */
  predicate OfAttempt(kind: EventKind) { kind.Production? || kind.BouncedEvent? || kind.MailedEvent? || kind.ReturnedEvent? }

  /** The events of a notice's attempts in the log are exactly those its deliveries call for. */
  ghost predicate Tells(events: seq<Event>, id: nat, ds: seq<Delivery>) {
    forall kind | OfAttempt(kind) :: Event(id, kind) in events <==> Reports(kind, ds)
  }

  ghost predicate LogTells(s: State) {
    && (forall id | id in s.notices :: Tells(s.events, id, s.notices[id].deliveries))
    && (forall e | e in s.events :: e.notice in s.notices)
  }

  /** An event of another notice, or one about no attempt, changes nothing. */
  lemma OtherEvent(events: seq<Event>, e: Event, id: nat, ds: seq<Delivery>)
    requires Tells(events, id, ds) && (e.notice != id || !OfAttempt(e.kind))
    ensures Tells(events + [e], id, ds)
  {
    hide Reports;
  }

  /** One more attempt, with the events it calls for. */
  lemma OneMore(events: seq<Event>, id: nat, ds: seq<Delivery>, d: Delivery)
    requires Tells(events, id, ds) && !d.mailed && !d.returned
    ensures var more := (if IsMail(d.channel) then [Event(id, Production(|ds| + 1))] else []) + (if d.bounced then [Event(id, BouncedEvent(|ds| + 1))] else []);
            Tells(events + more, id, ds + [d])
  {
    var more := (if IsMail(d.channel) then [Event(id, Production(|ds| + 1))] else []) + (if d.bounced then [Event(id, BouncedEvent(|ds| + 1))] else []);
    forall kind | OfAttempt(kind) ensures Event(id, kind) in events + more <==> Reports(kind, ds + [d]) {
      assert Event(id, kind) in events <==> Reports(kind, ds);
      hide IsMail;
    }
  }

  /** A sending under way tells the story of one notice, and adds only events of that notice. */
  ghost predicate SendTells(x: Sending, y: Sending, id: nat) {
    && (Tells(x.events, id, x.deliveries) ==> Tells(y.events, id, y.deliveries))
    && OnlyAbout(x.events, y.events, id)
  }

  ghost predicate OnlyAbout(a: seq<Event>, b: seq<Event>, id: nat) {
    forall e: Event | e.notice != id :: e in a <==> e in b
  }

  lemma MailTells(x: Sending, id: nat, partyId: string, channel: Channel, satisfies: bool, fallbackOf: Option<nat>, answers: nat -> Answer)
    requires IsMail(channel)
    ensures SendTells(x, MailPiece(x, id, partyId, channel, satisfies, fallbackOf, answers), id)
  {
    hide Tells, IsMail;
    var k := |x.deliveries| + 1;
    var d := Delivery(k, partyId, channel, satisfies, false, fallbackOf, false, false, None);
    if Tells(x.events, id, x.deliveries) {
      OneMore(x.events, id, x.deliveries, d);
      assert [Event(id, Production(k))] + [] == [Event(id, Production(k))];
    }
  }

  lemma ElectronicTells(x: Sending, id: nat, r: Recipient, d: Decision, answers: nat -> Answer)
    requires !IsMail(d.channel)
    ensures SendTells(x, ElectronicPiece(x, id, r, d, answers), id)
  {
    hide Tells, MarkSuspect, MailPiece;
    var k := |x.deliveries| + 1;
    var bounced := answers(k) == HardBounce;
    var e := Delivery(k, r.partyId, d.channel, d.satisfiesTimer, bounced, None, false, false, d.card);
    if Tells(x.events, id, x.deliveries) {
      OneMore(x.events, id, x.deliveries, e);
      assert [] + [Event(id, BouncedEvent(k))] == [Event(id, BouncedEvent(k))] && x.events + ([] + []) == x.events;
    }
    if bounced {
      var y := x.(deliveries := x.deliveries + [e], events := x.events + [Event(id, BouncedEvent(k))], consents := MarkSuspect(x.consents, r.consent));
      MailTells(y, id, r.partyId, MailFirstClass, true, Some(k), answers);
    }
  }

  lemma PieceTells(x: Sending, id: nat, rs: seq<Recipient>, d: Decision, answers: nat -> Answer)
    ensures SendTells(x, Piece(x, id, rs, d, answers), id)
  {
    hide Tells, MailPiece, ElectronicPiece, FindRecipient, IsMail;
    var r := FindRecipient(rs, d.partyId);
    if !d.held && r.Some? {
      if IsMail(d.channel) {
        MailTells(x, id, r.value.partyId, d.channel, d.satisfiesTimer, None, answers);
      } else {
        ElectronicTells(x, id, r.value, d, answers);
      }
    }
  }

  lemma {:induction false} SendingTells(x: Sending, id: nat, rs: seq<Recipient>, ds: seq<Decision>, k: nat, answers: nat -> Answer)
    requires k <= |ds|
    ensures SendTells(x, SendFrom(x, id, rs, ds, k, answers), id)
    decreases |ds| - k
  {
    hide Piece, Tells;
    if k < |ds| && x.ok {
      PieceTells(x, id, rs, ds[k], answers);
      SendingTells(Piece(x, id, rs, ds[k], answers), id, rs, ds, k + 1, answers);
    }
  }

  lemma AboutOthers(a: seq<Event>, b: seq<Event>, id: nat, j: nat, ds: seq<Delivery>)
    requires OnlyAbout(a, b, id) && j != id && Tells(a, j, ds)
    ensures Tells(b, j, ds)
  {
    hide Reports, OfAttempt;
  }

  /** One notice changed, with events of its own only. */
  lemma OneChanged(s: State, t: State, id: nat)
    requires LogTells(s) && id in s.notices && id in t.notices && t.notices == s.notices[id := t.notices[id]]
    requires OnlyAbout(s.events, t.events, id) && Tells(t.events, id, t.notices[id].deliveries)
    ensures LogTells(t)
  {
    hide Tells;
    forall j | j in t.notices ensures Tells(t.events, j, t.notices[j].deliveries) {
      if j != id { AboutOthers(s.events, t.events, id, j, s.notices[j].deliveries); }
    }
  }

  lemma RenderTells(s: State, reg: R.State, code: string, recipients: seq<Recipient>, payload: Value, asOf: int, env: Env)
    requires Inv(s) && LogTells(s)
    ensures LogTells(RenderNotice(s, reg, code, recipients, payload, asOf, env).state)
  {
    hide ChecklistPasses, NoticeOk, Replay, Tells;
    hide R.ActiveVersion, T.Render;
    var t := RenderNotice(s, reg, code, recipients, payload, asOf, env).state;
    if t != s {
      var id := s.nextId;
      var kind := if t.notices[id].status == Held then HeldEvent else RenderedEvent;
      assert t.events == s.events + [Event(id, kind)];
      NothingTold(s.events, id);
      forall j | j in t.notices ensures Tells(t.events, j, t.notices[j].deliveries) {
        OtherEvent(s.events, Event(id, kind), j, t.notices[j].deliveries);
      }
    }
  }

  lemma NothingTold(events: seq<Event>, id: nat)
    requires forall e | e in events :: e.notice != id
    ensures Tells(events, id, [])
  {
  }

  lemma SendTellsLog(s: State, reg: R.State, id: nat, ctx: Context, answers: nat -> Answer)
    requires LogTells(s)
    ensures LogTells(SendNotice(s, reg, id, ctx, answers).state)
  {
    hide Tells, SendFrom, DecideChannel, LogTells;
    if id in s.notices && s.notices[id].status == Rendered && s.notices[id].content.templateCode in reg.templates {
      var n := s.notices[id];
      var t := SendNotice(s, reg, id, ctx, answers).state;
      var ds := DecideChannel(reg.templates[n.content.templateCode], n.content.recipients, ctx, s.consents);
      ToldOf(s, id);
      if AllHeld(ds) {
        OtherEvent(s.events, Event(id, HeldEvent), id, n.deliveries);
      } else {
        var x0 := Sending(n.deliveries, s.events, s.consents, true);
        var x := SendFrom(x0, id, n.content.recipients, ds, 0, answers);
        SendingTells(x0, id, n.content.recipients, ds, 0, answers);
        OtherEvent(x.events, Event(id, SentEvent), id, x.deliveries);
      }
      OneChanged(s, t, id);
    }
  }

  lemma ToldOf(s: State, id: nat)
    requires LogTells(s) && id in s.notices
    ensures Tells(s.events, id, s.notices[id].deliveries)
  {
    hide Tells;
  }

  /** A mailing proof or a return marks its attempt and is logged. */
  lemma MarkTells(events: seq<Event>, id: nat, ds: seq<Delivery>, i: nat, returned: bool)
    requires Tells(events, id, ds) && i < |ds|
    ensures returned ==> Tells(events + [Event(id, ReturnedEvent(i + 1))], id, ds[i := ds[i].(returned := true)])
    ensures !returned ==> Tells(events + [Event(id, MailedEvent(i + 1))], id, ds[i := ds[i].(mailed := true)])
  {
    var e := Event(id, if returned then ReturnedEvent(i + 1) else MailedEvent(i + 1));
    var marked := ds[i := if returned then ds[i].(returned := true) else ds[i].(mailed := true)];
    forall kind | OfAttempt(kind) ensures Event(id, kind) in events + [e] <==> Reports(kind, marked) {
      assert Event(id, kind) in events <==> Reports(kind, ds);
      hide IsMail;
    }
  }

  lemma RecordTells(s: State, id: nat, attemptNo: nat, returned: bool)
    requires Inv(s) && LogTells(s)
    ensures LogTells((if returned then RecordReturned(s, id, attemptNo) else RecordMailed(s, id, attemptNo)).state)
  {
    hide Tells, LogTells, Replay;
    if id in s.notices {
      var ds := s.notices[id].deliveries;
      var i := FindDelivery(ds, attemptNo);
      if i < |ds| {
        assert NoticeOk(s.notices[id]);
        assert ds[i].attemptNo == i + 1;
        ToldOf(s, id);
        MarkTells(s.events, id, ds, i, returned);
        OneChanged(s, (if returned then RecordReturned(s, id, attemptNo) else RecordMailed(s, id, attemptNo)).state, id);
      }
    }
  }

  lemma DoTells(s: State, op: Op, env: Env)
    requires Inv(s) && LogTells(s)
    ensures LogTells(Do(s, op, env).state)
  {
    hide Inv, LogTells, RenderNotice, SendNotice, RecordMailed, RecordReturned;
    match op
    case Rendering(reg, code, recipients, payload, asOf) => RenderTells(s, reg, code, recipients, payload, asOf, env);
    case Sends(reg, id, ctx, answers) => SendTellsLog(s, reg, id, ctx, answers);
    case MailedProof(id, attemptNo) => RecordTells(s, id, attemptNo, false);
    case ReturnedMail(id, attemptNo) => RecordTells(s, id, attemptNo, true);
    case Superseding(id, replacement) => SupersedeTells(s, id, replacement);
    case ConsentsChanged(consents) => SameLog(s, s.(consents := consents));
  }

  lemma SameLog(s: State, t: State)
    requires LogTells(s) && t.notices == s.notices && t.events == s.events
    ensures LogTells(t)
  {
  }

  lemma SupersedeTells(s: State, id: nat, replacement: nat)
    requires LogTells(s)
    ensures LogTells(Supersede(s, id, replacement).state)
  {
    hide Tells, LogTells;
    if id in s.notices && replacement in s.notices {
      ToldOf(s, id);
      OtherEvent(s.events, Event(id, SupersededEvent(replacement)), id, s.notices[id].deliveries);
      OneChanged(s, Supersede(s, id, replacement).state, id);
    }
  }

  /**
   * In every run, whatever the ports answer, the log and the deliveries agree: attempt `k` of a notice has a
   * production event exactly when it is mail, a bounce event exactly when it bounced, a mailing or return
   * event exactly when it is so marked; and no event is about anything else.
   */
  lemma {:induction false} LogAgrees(consents: map<ConsentRef, Consent>, ops: seq<Op>, env: Env)
    ensures LogTells(Run(consents, ops, env))
  {
    hide Do, LogTells, Inv;
    if ops == [] {
      NothingLogged(consents);
    } else {
      LogAgrees(consents, ops[..|ops| - 1], env);
      RunInv(consents, ops[..|ops| - 1], env);
      DoTells(Run(consents, ops[..|ops| - 1], env), ops[|ops| - 1], env);
    }
  }

  lemma NothingLogged(consents: map<ConsentRef, Consent>)
    ensures LogTells(Init(consents))
  {
  }
}
