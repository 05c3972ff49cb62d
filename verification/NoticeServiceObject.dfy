/** The notice service as an object whose methods change its notices, its log and the shared consents in place (src/notices/service.ts:86-192). */
module NoticeServiceObject {
  import opened Basics
  import opened TemplateValues
  import opened Channels
  import opened NoticeService
  import opened NoticeOrigins
  import C = Checklist
  import R = Registry
  import T = NoticeText

  class Service {
    var notices: map<nat, Notice>
    var nextId: nat
    var events: seq<Event>
    var consents: map<ConsentRef, Consent>

    constructor (consents: map<ConsentRef, Consent>)
      ensures View() == Init(consents)
    {
      this.notices, this.nextId, this.events, this.consents := map[], 0, [], consents;
    }

    ghost function View(): State
      reads this
    {
      State(notices, nextId, events, consents)
    }

    /** How far the sending of a notice has come. */
    ghost function Progress(id: nat, ok: bool): Sending
      requires id in notices
      reads this
    {
      Sending(notices[id].deliveries, events, consents, ok)
    }

    /** Only the deliveries of one notice, the log and the consents have changed since. */
    twostate predicate OnlySent(id: nat)
      reads this
    {
      && id in old(notices) && id in notices && nextId == old(nextId)
      && notices == old(notices)[id := old(notices)[id].(deliveries := notices[id].deliveries)]
    }

    method Emit(id: nat, kind: EventKind)
      modifies this`events
      ensures events == old(events) + [Event(id, kind)]
    {
      events := events + [Event(id, kind)];
    }

    method Render(reg: R.State, code: string, recipients: seq<Recipient>, payload: Value, asOf: int, env: Env) returns (r: Result<nat, ServiceError>)
      modifies this
      ensures Outcome(View(), if r.Err? then Some(r.error) else None) == RenderNotice(old(View()), reg, code, recipients, payload, asOf, env)
      ensures r.Ok? ==> r.value == old(nextId) && r.value in notices && R.ActiveVersion(reg, code, asOf).Some?
      ensures r.Ok? ==> MadeBy(notices[r.value].content, Rendering(reg, code, recipients, payload, asOf), R.ActiveVersion(reg, code, asOf).value, env)
    {
      hide C.Passed, R.ActiveVersion, T.Render, MadeBy;
      RenderOutcome(View(), Rendering(reg, code, recipients, payload, asOf), env);
      if code !in reg.templates {
        return Err(UnknownTemplate);
      }
      var v := R.ActiveVersion(reg, code, asOf);
      if v.None? {
        return Err(NoVersionInEffect);
      }
      var rendered := T.RenderNotice(v.value.content.source, payload, env.formats);
      if rendered.Err? {
        return Err(BadTemplate(rendered.error));
      }
      var n := rendered.value;
      var passed, _ := C.EvaluateChecklist(v.value.content.rules, payload, C.Rendered(n.text, n.blocks), env.judge);
      var status := Rendered;
      if !passed {
        status := Held;
      } else if |recipients| == 0 {
        status := Held;
      }
      var id := nextId;
      notices := notices[id := Notice(Content(code, v.value.content.version, recipients, payload, n, passed), status, [], None)];
      nextId := nextId + 1;
      Emit(id, if status == Held then HeldEvent else RenderedEvent);
      return Ok(id);
    }

    method Send(reg: R.State, id: nat, ctx: Context, answers: nat -> Answer) returns (r: Option<ServiceError>)
      modifies this
      ensures Outcome(View(), r) == SendNotice(old(View()), reg, id, ctx, answers)
    {
      hide Piece, DecideChannel;
      if id !in notices {
        return Some(NoNotice(id));
      }
      var n := notices[id];
      if n.status == Held {
        return Some(NoticeHeld(id));
      }
      if n.status != Rendered {
        return None;
      }
      if n.content.templateCode !in reg.templates {
        return Some(UnknownTemplate);
      }
      var decisions := DecideChannel(reg.templates[n.content.templateCode], n.content.recipients, ctx, consents);
      if AllHeld(decisions) {
        notices := notices[id := n.(status := Held)];
        Emit(id, HeldEvent);
        return None;
      }
      ghost var before := Progress(id, true);
      for k := 0 to |decisions|
        invariant OnlySent(id)
        invariant SendFrom(before, id, n.content.recipients, decisions, 0, answers) == SendFrom(Progress(id, true), id, n.content.recipients, decisions, k, answers)
      {
        var ok := SendPiece(id, n.content.recipients, decisions[k], answers);
        if !ok {
          return Some(PortFailed);
        }
      }
      notices := notices[id := notices[id].(status := Sent)];
      Emit(id, SentEvent);
      return None;
    }

    /** One turn of the sending loop. */
    method SendPiece(id: nat, recipients: seq<Recipient>, d: Decision, answers: nat -> Answer) returns (ok: bool)
      requires id in notices
      modifies this
      ensures OnlySent(id) && Progress(id, ok) == Piece(old(Progress(id, true)), id, recipients, d, answers)
    {
      var r := FindRecipient(recipients, d.partyId);
      if d.held || r.None? {
        return true;
      }
      if IsMail(d.channel) {
        ok := Mail(id, r.value.partyId, d.channel, d.satisfiesTimer, None, answers);
      } else {
        ok := Electronic(id, r.value, d, answers);
      }
    }

    /** Submits a piece to the print-and-mail port; `answers` tells what the port does with each attempt. */
    method Mail(id: nat, partyId: string, channel: Channel, satisfies: bool, fallbackOf: Option<nat>, answers: nat -> Answer) returns (ok: bool)
      requires id in notices
      modifies this
      ensures OnlySent(id) && Progress(id, ok) == MailPiece(old(Progress(id, true)), id, partyId, channel, satisfies, fallbackOf, answers)
    {
      var n := notices[id];
      var attemptNo := |n.deliveries| + 1;
      if answers(attemptNo) == Fails {
        return false;
      }
      notices := notices[id := n.(deliveries := n.deliveries + [Delivery(attemptNo, partyId, channel, satisfies, false, fallbackOf, false, false, None)])];
      Emit(id, Production(attemptNo));
      return true;
    }

    method Electronic(id: nat, r: Recipient, d: Decision, answers: nat -> Answer) returns (ok: bool)
      requires id in notices
      modifies this
      ensures OnlySent(id) && Progress(id, ok) == ElectronicPiece(old(Progress(id, true)), id, r, d, answers)
    {
      var n := notices[id];
      var attemptNo := |n.deliveries| + 1;
      var answer := answers(attemptNo);
      if answer == Fails {
        return false;
      }
      notices := notices[id := n.(deliveries := n.deliveries + [Delivery(attemptNo, r.partyId, d.channel, d.satisfiesTimer, answer == HardBounce, None, false, false, d.card)])];
      ok := true;
      if answer == HardBounce {
        ok := Bounce(id, r, attemptNo, answers);
      }
    }

    method Bounce(id: nat, r: Recipient, attemptNo: nat, answers: nat -> Answer) returns (ok: bool)
      requires id in notices
      modifies this
      ensures OnlySent(id)
      ensures var x := old(Progress(id, true));
              Progress(id, ok) == MailPiece(x.(events := x.events + [Event(id, BouncedEvent(attemptNo))], consents := MarkSuspect(x.consents, r.consent)),
                                            id, r.partyId, MailFirstClass, true, Some(attemptNo), answers)
    {
      Emit(id, BouncedEvent(attemptNo));
      if r.consent.Some? && r.consent.value in consents {
        consents := consents[r.consent.value := consents[r.consent.value].(status := Suspect)];
      }
      ok := Mail(id, r.partyId, MailFirstClass, true, Some(attemptNo), answers);
    }

    method RecordMailed(id: nat, attemptNo: nat) returns (r: Option<ServiceError>)
      modifies this
      ensures Outcome(View(), r) == NoticeService.RecordMailed(old(View()), id, attemptNo)
    {
      if id !in notices {
        return Some(NoNotice(id));
      }
      var n := notices[id];
      var i := FindDelivery(n.deliveries, attemptNo);
      if i == |n.deliveries| {
        return Some(NoDelivery(attemptNo));
      }
      notices := notices[id := n.(status := Delivered, deliveries := n.deliveries[i := n.deliveries[i].(mailed := true)])];
      Emit(id, MailedEvent(attemptNo));
      return None;
    }

    method RecordReturned(id: nat, attemptNo: nat) returns (r: Option<ServiceError>)
      modifies this
      ensures Outcome(View(), r) == NoticeService.RecordReturned(old(View()), id, attemptNo)
    {
      if id !in notices {
        return Some(NoNotice(id));
      }
      var n := notices[id];
      var i := FindDelivery(n.deliveries, attemptNo);
      if i == |n.deliveries| {
        return Some(NoDelivery(attemptNo));
      }
      notices := notices[id := n.(status := Returned, deliveries := n.deliveries[i := n.deliveries[i].(returned := true)])];
      Emit(id, ReturnedEvent(attemptNo));
      return None;
    }

    method Supersede(id: nat, replacement: nat) returns (r: Option<ServiceError>)
      modifies this
      ensures Outcome(View(), r) == NoticeService.Supersede(old(View()), id, replacement)
    {
      if id !in notices {
        return Some(NoNotice(id));
      }
      if replacement !in notices {
        return Some(NoNotice(replacement));
      }
      notices := notices[id := notices[id].(status := Superseded, supersededBy := Some(replacement))];
      Emit(id, SupersededEvent(replacement));
      return None;
    }
  }
}
