/** The channel decision for each recipient of a notice (src/notices/channel.ts:22-44). */
module Channels {
  import opened Basics
  import opened Registry

  datatype Channel = MailFirstClass | MailCertified | EmailLink | PortalPost | EsignPortal

  predicate IsMail(c: Channel) { c == MailFirstClass || c == MailCertified }

  datatype ConsentStatus = PendingVerification | Active | Suspect | Withdrawn | ReconsentRequired | EvidenceOnly

  /** Consents are objects that several notices share; recipients hold a reference. */
  datatype Consent = Consent(status: ConsentStatus, classes: seq<string>)

  type ConsentRef = string

  /** An address or an email that is absent or empty is none. */
  datatype Recipient = Recipient(partyId: string, mailingAddress: Option<string>, email: Option<string>, consent: Option<ConsentRef>, portalUser: bool)

  datatype Context = Context(stateMandatedMail: bool, certified: bool, preferPortal: bool, cardInstances: map<string, string>)

  datatype Decision = Decision(partyId: string, channel: Channel, satisfiesTimer: bool, held: bool, card: Option<string>)

  function Mailed(r: Recipient, ctx: Context): Decision {
    Decision(r.partyId, if ctx.certified then MailCertified else MailFirstClass, r.mailingAddress.Some?, r.mailingAddress.None?, None)
  }

  /** The recipient's consent lets a notice of this class go out electronically. */
  predicate Covers(consents: map<ConsentRef, Consent>, r: Recipient, noticeClass: string) {
    && r.consent.Some? && r.consent.value in consents
    && consents[r.consent.value].status == Active
    && noticeClass in consents[r.consent.value].classes
  }

  function DecideOne(t: NoticeTemplate, r: Recipient, ctx: Context, consents: map<ConsentRef, Consent>): Decision {
    if t.channelPolicy.MailOnly? || ctx.stateMandatedMail then Mailed(r, ctx)
    else if t.channelPolicy.ElectronicOkWithoutEsign? then
      if r.email.Some? then Decision(r.partyId, EmailLink, true, false, None) else Mailed(r, ctx)
    else if !Covers(consents, r, t.noticeClass) then Mailed(r, ctx)
    else if r.partyId in ctx.cardInstances && ctx.cardInstances[r.partyId] != "" then
      Decision(r.partyId, EsignPortal, true, false, Some(ctx.cardInstances[r.partyId]))
    else Decision(r.partyId, if ctx.preferPortal && r.portalUser then PortalPost else EmailLink, true, false, None)
  }

  function DecideEach(t: NoticeTemplate, rs: seq<Recipient>, ctx: Context, consents: map<ConsentRef, Consent>): (ds: seq<Decision>)
    ensures |ds| == |rs| && forall i | 0 <= i < |ds| :: ds[i] == DecideOne(t, rs[i], ctx, consents)
  {
    seq(|rs|, i requires 0 <= i < |rs| => DecideOne(t, rs[i], ctx, consents))
  }

  predicate AnyMail(ds: seq<Decision>) {
    exists i | 0 <= i < |ds| :: IsMail(ds[i].channel) && !ds[i].held
  }

  /** When some party mails, only mail satisfies the regulatory timer. */
  function DecideChannel(t: NoticeTemplate, rs: seq<Recipient>, ctx: Context, consents: map<ConsentRef, Consent>): (ds: seq<Decision>)
    ensures |ds| == |rs|
  {
    var each := DecideEach(t, rs, ctx, consents);
    var anyMail := AnyMail(each);
    seq(|each|, i requires 0 <= i < |each| => if anyMail && !IsMail(each[i].channel) then each[i].(satisfiesTimer := false) else each[i])
  }

  /**
   * A notice leaves electronically exactly when no state mandates mail and its policy asks for no consent and
   * there is an email, or asks for one and the recipient's consent is in the store, active and of its class; it
   * is held exactly when it would be mailed and there is no address.  Which electronic channel it takes follows
   * the policy, the card of its party and the preference for the portal.
   */
  lemma ElectronicExact(t: NoticeTemplate, rs: seq<Recipient>, ctx: Context, consents: map<ConsentRef, Consent>, i: nat)
    requires i < |rs|
    ensures var d, r := DecideChannel(t, rs, ctx, consents)[i], rs[i];
            && d.partyId == r.partyId
            && (!IsMail(d.channel) <==>
                  && !ctx.stateMandatedMail
                  && ((t.channelPolicy.ElectronicOkWithoutEsign? && r.email.Some?)
                      || (t.channelPolicy.EsignOrMail? && r.consent.Some? && r.consent.value in consents
                          && consents[r.consent.value].status == Active && t.noticeClass in consents[r.consent.value].classes)))
            && (d.held <==> IsMail(d.channel) && r.mailingAddress.None?)
            && (d.channel == MailCertified <==> IsMail(d.channel) && ctx.certified)
            && (d.channel == EsignPortal <==>
                  !IsMail(d.channel) && t.channelPolicy.EsignOrMail? && r.partyId in ctx.cardInstances && ctx.cardInstances[r.partyId] != "")
            && (d.card.Some? <==> d.channel == EsignPortal)
            && (d.card.Some? ==> r.partyId in ctx.cardInstances && d.card.value == ctx.cardInstances[r.partyId])
            && (d.channel == PortalPost <==>
                  !IsMail(d.channel) && t.channelPolicy.EsignOrMail? && d.card.None? && ctx.preferPortal && r.portalUser)
  {
  }

  /**
   * Where consent decides, and no state mandates mail, a notice goes by mail to whoever has no consent in the
   * store, whatever the status of one that is not active, and when its class is not among the consent's.
   */
  lemma ConsentDecides(t: NoticeTemplate, rs: seq<Recipient>, ctx: Context, consents: map<ConsentRef, Consent>, i: nat)
    requires i < |rs| && t.channelPolicy.EsignOrMail? && !ctx.stateMandatedMail
    ensures var channel, ref := DecideChannel(t, rs, ctx, consents)[i].channel, rs[i].consent;
            var mail := channel == MailFirstClass || channel == MailCertified;
            && (ref.None? || ref.value !in consents ==> mail)
            && (ref.Some? && ref.value in consents ==>
                  match consents[ref.value].status
                  case Active => mail <==> t.noticeClass !in consents[ref.value].classes
                  case PendingVerification => mail
                  case Suspect => mail
                  case Withdrawn => mail
                  case ReconsentRequired => mail
                  case EvidenceOnly => mail)
  {
    ElectronicExact(t, rs, ctx, consents, i);
  }

  /** There is a way to reach the recipient: an address, or an electronic channel that is allowed. */
  predicate Reachable(t: NoticeTemplate, r: Recipient, ctx: Context, consents: map<ConsentRef, Consent>) {
    r.mailingAddress.Some? ||
    (!ctx.stateMandatedMail &&
     ((t.channelPolicy.ElectronicOkWithoutEsign? && r.email.Some?) ||
      (t.channelPolicy.EsignOrMail? && r.consent.Some? && r.consent.value in consents
       && consents[r.consent.value].status == Active && t.noticeClass in consents[r.consent.value].classes)))
  }

  /** A decision is held exactly when its recipient cannot be reached. */
  lemma HeldExact(t: NoticeTemplate, rs: seq<Recipient>, ctx: Context, consents: map<ConsentRef, Consent>, i: nat)
    requires i < |rs|
    ensures DecideChannel(t, rs, ctx, consents)[i].held <==> !Reachable(t, rs[i], ctx, consents)
  {
    hide DecideChannel;
    ElectronicExact(t, rs, ctx, consents, i);
  }

  lemma OneSatisfies(t: NoticeTemplate, r: Recipient, ctx: Context, consents: map<ConsentRef, Consent>)
    ensures var d := DecideOne(t, r, ctx, consents);
            d.satisfiesTimer == !d.held && (d.held ==> IsMail(d.channel))
  {
    hide Covers;
  }

  /**
   * A decision satisfies the timer exactly when it goes out and is mail, or no mail goes out at all; so if
   * any goes out, one that goes out satisfies it.
   */
  lemma TimerSatisfied(t: NoticeTemplate, rs: seq<Recipient>, ctx: Context, consents: map<ConsentRef, Consent>)
    ensures var ds := DecideChannel(t, rs, ctx, consents);
            && (forall i | 0 <= i < |ds| ::
                  ds[i].satisfiesTimer <==> !ds[i].held && (IsMail(ds[i].channel) || forall j | 0 <= j < |ds| && IsMail(ds[j].channel) :: ds[j].held))
            && ((exists i :: 0 <= i < |ds| && !ds[i].held) ==> exists i :: 0 <= i < |ds| && !ds[i].held && ds[i].satisfiesTimer)
  {
    hide DecideOne;
    forall i | 0 <= i < |rs|
      ensures var d := DecideOne(t, rs[i], ctx, consents); d.satisfiesTimer == !d.held && (d.held ==> IsMail(d.channel))
    {
      OneSatisfies(t, rs[i], ctx, consents);
    }
    var each, ds := DecideEach(t, rs, ctx, consents), DecideChannel(t, rs, ctx, consents);
    SameMail(each, ds);
    if AnyMail(each) {
      var i :| 0 <= i < |each| && IsMail(each[i].channel) && !each[i].held;
      assert ds[i] == each[i] && ds[i].satisfiesTimer;
    } else if i :| 0 <= i < |ds| && !ds[i].held {
      assert ds[i] == each[i];
    }
  }

  lemma SameMail(a: seq<Decision>, b: seq<Decision>)
    requires |a| == |b| && forall i | 0 <= i < |a| :: b[i].channel == a[i].channel && b[i].held == a[i].held
    ensures AnyMail(a) == AnyMail(b)
  {
    if AnyMail(a) {
      var i :| 0 <= i < |a| && IsMail(a[i].channel) && !a[i].held;
      assert IsMail(b[i].channel) && !b[i].held;
    }
    if AnyMail(b) {
      var i :| 0 <= i < |b| && IsMail(b[i].channel) && !b[i].held;
      assert IsMail(a[i].channel) && !a[i].held;
    }
  }
}
