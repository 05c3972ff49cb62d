/** The notice registry (src/notices/registry.ts:85-137): immutable, effective-dated template versions behind a publish gate. */
module Registry {
  import opened Basics
  import opened TemplateValues
  import opened Checklist

  datatype ChannelPolicy = EsignOrMail | MailOnly | ElectronicOkWithoutEsign

  datatype NoticeTemplate = NoticeTemplate(code: string, noticeClass: string, channelPolicy: ChannelPolicy, separateDocument: bool)

  datatype Status = Draft | AiReviewed | CounselApproved | Retired

  /** What a version says; never edited. */
  datatype Content = Content(templateCode: string, version: string, effectiveFrom: int, source: string, rules: seq<Rule>, samplePayload: Value)

  datatype Version = Version(content: Content, status: Status, effectiveTo: Option<int>, approvedBy: Option<string>)

  datatype State = State(templates: map<string, NoticeTemplate>, versions: map<string, seq<Version>>)

  datatype RegistryError = UnknownTemplate(code: string) | AlreadyExists(version: string) | NoVersion(version: string) | NotPublishable

  /** The state after an operation, and the error if it was refused. */
  datatype Outcome = Outcome(state: State, refused: Option<RegistryError>)

  const EMPTY := State(map[], map[])

  function VersionsOf(s: State, code: string): seq<Version> {
    if code in s.versions then s.versions[code] else []
  }

  /** The first version with this number. */
  function IndexOf(list: seq<Version>, version: string): (i: nat)
    ensures i <= |list|
    ensures i < |list| ==> list[i].content.version == version
    ensures forall j | 0 <= j < i :: list[j].content.version != version
  {
    if list == [] || list[0].content.version == version then 0 else 1 + IndexOf(list[1..], version)
  }

  datatype Op =
    | Register(t: NoticeTemplate)
    | AddDraft(content: Content, status: Option<Status>, effectiveTo: Option<int>)
    | Publish(code: string, version: string, approver: string)
    | Retire(code: string, version: string, to: int)

  /** What an operation does; a refused one changes nothing. */
  function Do(s: State, op: Op, check: Content -> bool): Outcome {
    match op
    case Register(t) => Outcome(s.(templates := s.templates[t.code := t]), None)
    case AddDraft(content, status, to) =>
      var list := VersionsOf(s, content.templateCode);
      if content.templateCode !in s.templates then Outcome(s, Some(UnknownTemplate(content.templateCode)))
      else if IndexOf(list, content.version) < |list| then Outcome(s, Some(AlreadyExists(content.version)))
      else
        var v := Version(content, if status.Some? then status.value else Draft, to, None);
        Outcome(s.(versions := s.versions[content.templateCode := list + [v]]), None)
    case Publish(code, version, approver) =>
      var list := VersionsOf(s, code);
      var i := IndexOf(list, version);
      if i == |list| then Outcome(s, Some(NoVersion(version)))
      else if list[i].status == CounselApproved then Outcome(s, None)
      else if !check(list[i].content) then Outcome(s, Some(NotPublishable))
      else Outcome(s.(versions := s.versions[code := list[i := list[i].(status := CounselApproved, approvedBy := Some(approver))]]), None)
    case Retire(code, version, to) =>
      var list := VersionsOf(s, code);
      var i := IndexOf(list, version);
      if i == |list| then Outcome(s, Some(NoVersion(version)))
      else Outcome(s.(versions := s.versions[code := list[i := list[i].(status := Retired, effectiveTo := Some(to))]]), None)
  }

  function Run(ops: seq<Op>, check: Content -> bool): State {
    if ops == [] then EMPTY else Do(Run(ops[..|ops| - 1], check), ops[|ops| - 1], check).state
  }

  // ---- what every run keeps

  ghost predicate UniqueVersions(s: State) {
    forall code, i, j | code in s.versions && 0 <= i < j < |s.versions[code]| ::
      s.versions[code][i].content.version != s.versions[code][j].content.version
  }

  /** Every version of `s` is still there in `t`, at its place and with its content. */
  ghost predicate ContentKept(s: State, t: State) {
    forall code | code in s.versions :: code in t.versions && ListKept(s.versions[code], t.versions[code])
  }

  ghost predicate ListKept(a: seq<Version>, b: seq<Version>) {
    |a| <= |b| && forall i | 0 <= i < |a| :: b[i].content == a[i].content
  }

  /** Some draft of this content was entered as already approved. */
  ghost predicate EnteredApproved(ops: seq<Op>, content: Content) {
    exists k :: 0 <= k < |ops| && ops[k].AddDraft? && ops[k].content == content && ops[k].status == Some(CounselApproved)
  }

  ghost predicate ApprovedChecked(s: State, ops: seq<Op>, check: Content -> bool) {
    forall code, i | code in s.versions && 0 <= i < |s.versions[code]| && s.versions[code][i].status == CounselApproved ::
      check(s.versions[code][i].content) || EnteredApproved(ops, s.versions[code][i].content)
  }

  /** An operation leaves the lists as they are, adds a new number to one, or replaces one entry by one of the same content. */
  lemma DoShape(s: State, op: Op, check: Content -> bool) returns (code: string, i: nat, v: Version)
    ensures var t, list := Do(s, op, check).state, VersionsOf(s, code);
            || t.versions == s.versions
            || (i == |list| && t.versions == s.versions[code := list + [v]] && forall j | 0 <= j < |list| :: list[j].content.version != v.content.version)
            || (i < |list| && t.versions == s.versions[code := list[i := v]] && list[i].content == v.content)
  {
    match op
    case Register(t) => code, i, v := "", 0, Version(Content("", "", 0, "", [], Null), Draft, None, None);
    case AddDraft(content, status, to) =>
      code, i := content.templateCode, |VersionsOf(s, content.templateCode)|;
      v := Version(content, if status.Some? then status.value else Draft, to, None);
    case Publish(c, version, approver) =>
      code, i := c, IndexOf(VersionsOf(s, c), version);
      v := if i < |VersionsOf(s, c)| then VersionsOf(s, c)[i].(status := CounselApproved, approvedBy := Some(approver)) else Version(Content("", "", 0, "", [], Null), Draft, None, None);
    case Retire(c, version, to) =>
      code, i := c, IndexOf(VersionsOf(s, c), version);
      v := if i < |VersionsOf(s, c)| then VersionsOf(s, c)[i].(status := Retired, effectiveTo := Some(to)) else Version(Content("", "", 0, "", [], Null), Draft, None, None);
  }

  lemma DoKeeps(s: State, op: Op, check: Content -> bool)
    requires UniqueVersions(s)
    ensures var t := Do(s, op, check).state; UniqueVersions(t) && ContentKept(s, t)
  {
    hide Do;
    var code, i, v := DoShape(s, op, check);
  }

  lemma EnteredSnoc(ops: seq<Op>, op: Op, content: Content)
    ensures EnteredApproved(ops, content) ==> EnteredApproved(ops + [op], content)
    ensures op.AddDraft? && op.content == content && op.status == Some(CounselApproved) ==> EnteredApproved(ops + [op], content)
  {
    if EnteredApproved(ops, content) {
      var k :| 0 <= k < |ops| && ops[k].AddDraft? && ops[k].content == content && ops[k].status == Some(CounselApproved);
      assert (ops + [op])[k] == ops[k];
    }
    assert (ops + [op])[|ops|] == op;
  }

  lemma DoApproved(s: State, ops: seq<Op>, op: Op, check: Content -> bool)
    requires ApprovedChecked(s, ops, check)
    ensures ApprovedChecked(Do(s, op, check).state, ops + [op], check)
  {
    hide EnteredApproved;
    var t := Do(s, op, check).state;
    forall code, i | code in t.versions && 0 <= i < |t.versions[code]| && t.versions[code][i].status == CounselApproved
      ensures check(t.versions[code][i].content) || EnteredApproved(ops + [op], t.versions[code][i].content)
    {
      EnteredSnoc(ops, op, t.versions[code][i].content);
    }
  }

  /**
   * In every run, no code has two versions of one number, and every approved version passes its own gate
   * unless a draft of it was entered as already approved.
   */
  lemma {:induction false} RunKeeps(ops: seq<Op>, check: Content -> bool)
    ensures UniqueVersions(Run(ops, check)) && ApprovedChecked(Run(ops, check), ops, check)
  {
    hide Do, UniqueVersions, ApprovedChecked;
    if ops == [] {
      NothingYet(check);
    } else {
      var init := ops[..|ops| - 1];
      var last := ops[|ops| - 1];
      assert init + [last] == ops;
      RunKeeps(init, check);
      DoKeeps(Run(init, check), last, check);
      DoApproved(Run(init, check), init, last, check);
    }
  }

  lemma NothingYet(check: Content -> bool)
    ensures UniqueVersions(EMPTY) && ApprovedChecked(EMPTY, [], check)
  {
  }

  /** Sources, rules and sample payloads never change: what a run has entered stays through any continuation. */
  lemma {:induction false} ContentNeverChanges(ops: seq<Op>, more: seq<Op>, check: Content -> bool)
    ensures ContentKept(Run(ops, check), Run(ops + more, check))
    decreases |more|
  {
    hide Do, UniqueVersions, ApprovedChecked, ContentKept;
    if more == [] {
      assert ops + [] == ops;
      ContentKeptSame(Run(ops, check));
    } else {
      var init, last, all := more[..|more| - 1], more[|more| - 1], ops + more;
      assert all[..|all| - 1] == ops + init && all[|all| - 1] == last;
      ContentNeverChanges(ops, init, check);
      RunKeeps(ops + init, check);
      DoKeeps(Run(ops + init, check), last, check);
      ContentKeptOn(Run(ops, check), Run(ops + init, check), Run(all, check));
    }
  }

  lemma ContentKeptSame(s: State)
    ensures ContentKept(s, s)
  {
  }

  lemma ContentKeptOn(s: State, t: State, u: State)
    requires ContentKept(s, t) && ContentKept(t, u)
    ensures ContentKept(s, u)
  {
    forall code | code in s.versions ensures code in u.versions && ListKept(s.versions[code], u.versions[code]) {
      assert code in t.versions && ListKept(s.versions[code], t.versions[code]);
      assert ListKept(t.versions[code], u.versions[code]);
    }
  }

  /** Drafting as approved goes around the gate: a version that fails its check is approved. */
  lemma GateBypassed(t: NoticeTemplate, content: Content, check: Content -> bool)
    requires t.code == content.templateCode && !check(content)
    ensures var s := Run([Register(t), AddDraft(content, Some(CounselApproved), None)], check);
            VersionsOf(s, t.code) == [Version(content, CounselApproved, None, None)]
  {
    var ops := [Register(t), AddDraft(content, Some(CounselApproved), None)];
    assert ops[..1] == [Register(t)] && ops[..1][..0] == [];
    assert Run([Register(t)], check) == Do(EMPTY, Register(t), check).state;
  }

  /** Every approved version passes the gate. */
  ghost predicate AllPass(s: State, check: Content -> bool) {
    forall code, i | code in s.versions && 0 <= i < |s.versions[code]| && s.versions[code][i].status == CounselApproved ::
      check(s.versions[code][i].content)
  }

  /** A new version of a known template that fails the gate is drafted as already approved. */
  predicate Bypasses(s: State, op: Op, check: Content -> bool) {
    && op.AddDraft? && op.status == Some(CounselApproved) && !check(op.content)
    && op.content.templateCode in s.templates
    && forall v | v in VersionsOf(s, op.content.templateCode) :: v.content.version != op.content.version
  }

  /** While every approved version passes, an operation keeps it so exactly when it does not bypass the gate. */
  lemma BypassExact(s: State, op: Op, check: Content -> bool)
    requires AllPass(s, check)
    ensures AllPass(Do(s, op, check).state, check) <==> !Bypasses(s, op, check)
  {
    var t := Do(s, op, check).state;
    if Bypasses(s, op, check) {
      var code := op.content.templateCode;
      var list := VersionsOf(s, code);
      assert t.versions[code][|list|] == Version(op.content, CounselApproved, op.effectiveTo, None);
    } else if op.AddDraft? {
      var list := VersionsOf(s, op.content.templateCode);
      assert IndexOf(list, op.content.version) < |list| ==> list[IndexOf(list, op.content.version)] in list;
    }
  }

  ghost predicate AlwaysPassing(ops: seq<Op>, check: Content -> bool) {
    (ops != [] ==> AlwaysPassing(ops[..|ops| - 1], check)) && AllPass(Run(ops, check), check)
  }

  predicate NeverBypassed(ops: seq<Op>, check: Content -> bool) {
    ops != [] ==> NeverBypassed(ops[..|ops| - 1], check) && !Bypasses(Run(ops[..|ops| - 1], check), ops[|ops| - 1], check)
  }

  /** All through a run every approved version passes the gate exactly when no draft of the run bypasses it. */
  lemma {:induction false} GateHoldsExact(ops: seq<Op>, check: Content -> bool)
    ensures AlwaysPassing(ops, check) <==> NeverBypassed(ops, check)
  {
    hide Do, AllPass, Bypasses;
    if ops == [] {
      NothingApproved(check);
    } else {
      var init := ops[..|ops| - 1];
      GateHoldsExact(init, check);
      if AlwaysPassing(init, check) { BypassExact(Run(init, check), ops[|ops| - 1], check); }
    }
  }

  lemma NothingApproved(check: Content -> bool)
    ensures AllPass(EMPTY, check)
  {
  }

  // ---- the version in effect

  predicate InEffect(v: Version, asOf: int) {
    && v.status == CounselApproved
    && v.content.effectiveFrom <= asOf
    && (v.effectiveTo.None? || v.effectiveTo.value >= asOf)
  }

  function EffectiveOnes(list: seq<Version>, asOf: int): seq<Version> {
    if list == [] then [] else (if InEffect(list[0], asOf) then [list[0]] else []) + EffectiveOnes(list[1..], asOf)
  }

  /** A stable sort, latest `effectiveFrom` first. */
  function InsertLatest(v: Version, list: seq<Version>): seq<Version> {
    if list == [] || v.content.effectiveFrom >= list[0].content.effectiveFrom then [v] + list
    else [list[0]] + InsertLatest(v, list[1..])
  }

  function LatestFirst(list: seq<Version>): seq<Version> {
    if list == [] then [] else InsertLatest(list[0], LatestFirst(list[1..]))
  }

  function ActiveVersion(s: State, code: string, asOf: int): Option<Version> {
    var sorted := LatestFirst(EffectiveOnes(VersionsOf(s, code), asOf));
    if sorted == [] then None else Some(sorted[0])
  }

  lemma {:induction false} EffectiveOnesIn(list: seq<Version>, asOf: int, v: Version)
    ensures v in EffectiveOnes(list, asOf) <==> v in list && InEffect(v, asOf)
  {
    if list != [] {
      EffectiveOnesIn(list[1..], asOf, v);
      assert list == [list[0]] + list[1..];
    }
  }

  lemma {:induction false} LatestFirstIn(list: seq<Version>, v: Version)
    ensures v in LatestFirst(list) <==> v in list
    ensures v in list ==> LatestFirst(list)[0].content.effectiveFrom >= v.content.effectiveFrom
    ensures list == [] <==> LatestFirst(list) == []
  {
    if list != [] {
      LatestFirstIn(list[1..], v);
      InsertLatestIn(list[0], LatestFirst(list[1..]), v);
      assert list == [list[0]] + list[1..];
    }
  }

  lemma {:induction false} InsertLatestIn(x: Version, list: seq<Version>, v: Version)
    ensures v in InsertLatest(x, list) <==> v == x || v in list
    ensures InsertLatest(x, list) != []
    ensures InsertLatest(x, list)[0].content.effectiveFrom >= x.content.effectiveFrom
    ensures list != [] ==> InsertLatest(x, list)[0].content.effectiveFrom >= list[0].content.effectiveFrom
  {
    if list != [] && x.content.effectiveFrom < list[0].content.effectiveFrom {
      InsertLatestIn(x, list[1..], v);
      assert list == [list[0]] + list[1..];
    }
  }

  /**
   * The active version is approved, starts on or before the date, does not end before it, and of all such
   * versions of its code starts latest; there is none exactly when there is no such version.
   */
  lemma ActiveVersionExact(s: State, code: string, asOf: int)
    ensures var a := ActiveVersion(s, code, asOf);
            && (a.Some? ==>
                  && code in s.versions && a.value in s.versions[code]
                  && a.value.status == CounselApproved
                  && a.value.content.effectiveFrom <= asOf
                  && (a.value.effectiveTo.Some? ==> asOf <= a.value.effectiveTo.value))
            && (code !in s.versions ==> a == None)
            && (code in s.versions ==>
                  forall v | v in s.versions[code] && v.status == CounselApproved && v.content.effectiveFrom <= asOf
                    && (v.effectiveTo.Some? ==> asOf <= v.effectiveTo.value) ::
                    a.Some? && v.content.effectiveFrom <= a.value.content.effectiveFrom)
  {
    hide EffectiveOnes, LatestFirst;
    var list := VersionsOf(s, code);
    var ones := EffectiveOnes(list, asOf);
    var sorted := LatestFirst(ones);
    forall v ensures (v in ones <==> v in list && InEffect(v, asOf)) && (v in sorted <==> v in ones)
      && (v in ones ==> sorted != [] && sorted[0].content.effectiveFrom >= v.content.effectiveFrom)
    {
      EffectiveOnesIn(list, asOf, v);
      LatestFirstIn(ones, v);
    }
    LatestFirstNil(ones);
    if sorted != [] {
      assert sorted[0] in sorted;
    }
  }

  /** A version that was just retired is not the active one on any date. */
  lemma RetiredIsNotActive(s: State, code: string, version: string, to: int, check: Content -> bool, asOf: int)
    requires UniqueVersions(s) && Do(s, Retire(code, version, to), check).refused == None
    ensures var a := ActiveVersion(Do(s, Retire(code, version, to), check).state, code, asOf); a.Some? ==> a.value.content.version != version
  {
    hide ActiveVersion;
    var t := Do(s, Retire(code, version, to), check).state;
    ActiveVersionExact(t, code, asOf);
    DoKeeps(s, Retire(code, version, to), check);
    var a := ActiveVersion(t, code, asOf);
    if a.Some? {
      var list, i := VersionsOf(t, code), IndexOf(VersionsOf(s, code), version);
      var k :| 0 <= k < |list| && list[k] == a.value;
      assert list[i].status == Retired && list[i].content.version == version;
    }
  }

  lemma LatestFirstNil(list: seq<Version>)
    ensures list == [] <==> LatestFirst(list) == []
    ensures list != [] ==> list[0] in list
  {
    if list != [] { LatestFirstIn(list, list[0]); }
  }

  /** The registry object: two maps, whose lists are extended and whose entries are replaced in place. */
  class NoticeRegistry {
    var templates: map<string, NoticeTemplate>
    var versions: map<string, seq<Version>>

    ghost function View(): State
      reads this
    {
      State(templates, versions)
    }

    constructor ()
      ensures View() == EMPTY
    {
      templates, versions := map[], map[];
    }

    method RegisterTemplate(t: NoticeTemplate)
      modifies this
      ensures forall check :: View() == Do(old(View()), Register(t), check).state
    {
      templates := templates[t.code := t];
    }

    method DraftVersion(content: Content, status: Option<Status>, effectiveTo: Option<int>) returns (r: Option<RegistryError>)
      modifies this
      ensures forall check :: Outcome(View(), r) == Do(old(View()), AddDraft(content, status, effectiveTo), check)
    {
      if content.templateCode !in templates {
        return Some(UnknownTemplate(content.templateCode));
      }
      var list := if content.templateCode in versions then versions[content.templateCode] else [];
      if IndexOf(list, content.version) < |list| {
        return Some(AlreadyExists(content.version));
      }
      var v := Version(content, if status.Some? then status.value else Draft, effectiveTo, None);
      versions := versions[content.templateCode := list + [v]];
      return None;
    }

    method PublishVersion(code: string, version: string, approver: string, check: Content -> bool) returns (r: Option<RegistryError>)
      modifies this
      ensures Outcome(View(), r) == Do(old(View()), Publish(code, version, approver), check)
    {
      var list := if code in versions then versions[code] else [];
      var i := IndexOf(list, version);
      if i == |list| {
        return Some(NoVersion(version));
      }
      var v := list[i];
      if v.status == CounselApproved {
        return None;
      }
      if !check(v.content) {
        return Some(NotPublishable);
      }
      versions := versions[code := list[i := v.(status := CounselApproved, approvedBy := Some(approver))]];
      return None;
    }

    method RetireVersion(code: string, version: string, to: int) returns (r: Option<RegistryError>)
      modifies this
      ensures forall check :: Outcome(View(), r) == Do(old(View()), Retire(code, version, to), check)
    {
      var list := if code in versions then versions[code] else [];
      var i := IndexOf(list, version);
      if i == |list| {
        return Some(NoVersion(version));
      }
      versions := versions[code := list[i := list[i].(status := Retired, effectiveTo := Some(to))]];
      return None;
    }
  }
}
