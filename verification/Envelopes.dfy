/** Envelope planning for a mail batch (src/notices/channel.ts:46-71): a first-fit partition of each party's items. */
module Envelopes {

  /** What planning looks at in a template. */
  datatype Template = Template(code: string, mayCombineWith: seq<string>, separateDocument: bool)

  datatype Item = Item(noticeId: string, template: Template, partyId: string)

  datatype Envelope = Envelope(partyId: string, items: seq<Item>, separatePdfs: seq<string>)

  predicate Allows(x: Template, y: Template) {
    y.code in x.mayCombineWith || "*" in x.mayCombineWith
  }

  predicate CanCombine(a: Template, b: Template) {
    a.code == b.code || Allows(a, b) || Allows(b, a)
  }

  predicate Fits(env: seq<Item>, cand: Item) {
    forall e | e in env :: CanCombine(e.template, cand.template)
  }

  // ---- what planning comes to

  datatype Split = Split(env: seq<Item>, rest: seq<Item>)

  /** One pass over the candidates: those that fit all the items so far join the envelope, the others stay. */
  function FirstFit(env: seq<Item>, cands: seq<Item>): Split
    decreases |cands|
  {
    if cands == [] then Split(env, [])
    else if Fits(env, cands[0]) then FirstFit(env + [cands[0]], cands[1..])
    else
      var s := FirstFit(env, cands[1..]);
      Split(s.env, [cands[0]] + s.rest)
  }

  lemma {:induction false} FirstFitSizes(env: seq<Item>, cands: seq<Item>)
    ensures var s := FirstFit(env, cands); |s.env| + |s.rest| == |env| + |cands| && env <= s.env
    decreases |cands|
  {
    if cands != [] {
      if Fits(env, cands[0]) {
        FirstFitSizes(env + [cands[0]], cands[1..]);
      } else {
        FirstFitSizes(env, cands[1..]);
      }
    }
  }

  /** The items of one party, envelope by envelope. */
  function Greedy(list: seq<Item>): seq<seq<Item>>
    decreases |list|
  {
    if list == [] then []
    else
      FirstFitSizes([list[0]], list[1..]);
      var s := FirstFit([list[0]], list[1..]);
      [s.env] + Greedy(s.rest)
  }

  function ItemsOf(party: string, items: seq<Item>): seq<Item> {
    if items == [] then []
    else (if items[0].partyId == party then [items[0]] else []) + ItemsOf(party, items[1..])
  }

  /** The parties in the order of their first item. */
  function Parties(items: seq<Item>): seq<string> {
    if items == [] then []
    else
      var before := Parties(items[..|items| - 1]);
      var p := items[|items| - 1].partyId;
      if p in before then before else before + [p]
  }

  function SeparatePdfs(env: seq<Item>): seq<string> {
    if env == [] then []
    else (if env[0].template.separateDocument then [env[0].noticeId] else []) + SeparatePdfs(env[1..])
  }

  function Enveloped(party: string, envs: seq<seq<Item>>): (r: seq<Envelope>)
    ensures |r| == |envs|
    ensures forall i | 0 <= i < |r| :: r[i] == Envelope(party, envs[i], SeparatePdfs(envs[i]))
  {
    seq(|envs|, i requires 0 <= i < |envs| => Envelope(party, envs[i], SeparatePdfs(envs[i])))
  }

  function PlanFor(parties: seq<string>, items: seq<Item>): seq<Envelope> {
    if parties == [] then []
    else PlanFor(parties[..|parties| - 1], items) + Enveloped(parties[|parties| - 1], Greedy(ItemsOf(parties[|parties| - 1], items)))
  }

  // ---- what a plan for one party guarantees

  ghost predicate Pairwise(env: seq<Item>) {
    forall i, j | 0 <= i < j < |env| :: CanCombine(env[i].template, env[j].template)
  }

  /** `x` conflicts with some item of the envelope. */
  ghost predicate Conflicts(env: seq<Item>, x: Item) {
    exists e :: e in env && !CanCombine(e.template, x.template)
  }

  function Flatten(envs: seq<seq<Item>>): seq<Item> {
    if envs == [] then [] else envs[0] + Flatten(envs[1..])
  }

  /**
   * Two templates combine exactly when they have one code, or one of them lists the other's code, or either
   * of them lists the wildcard, which stands for every template.
   */
  lemma CombineExact(a: Template, b: Template)
    ensures CanCombine(a, b) <==>
            || a.code == b.code
            || (exists k :: 0 <= k < |a.mayCombineWith| && a.mayCombineWith[k] == b.code)
            || (exists k :: 0 <= k < |b.mayCombineWith| && b.mayCombineWith[k] == a.code)
            || (exists k :: 0 <= k < |a.mayCombineWith| && a.mayCombineWith[k] == "*")
            || (exists k :: 0 <= k < |b.mayCombineWith| && b.mayCombineWith[k] == "*")
  {
  }

  /** Combining is symmetric, and a template combines with itself. */
  lemma CombineSymmetric(a: Template, b: Template)
    ensures CanCombine(a, b) == CanCombine(b, a) && CanCombine(a, a)
  {
  }

  /** Where a candidate goes. */
  lemma FirstFitStep(env: seq<Item>, c: Item, more: seq<Item>)
    ensures Fits(env, c) ==> FirstFit(env, [c] + more) == FirstFit(env + [c], more)
    ensures !Fits(env, c) ==> FirstFit(env, [c] + more) == Split(FirstFit(env, more).env, [c] + FirstFit(env, more).rest)
  {
    hide Fits;
    assert ([c] + more)[1..] == more;
  }

  lemma {:induction false} FirstFitSpec(env: seq<Item>, cands: seq<Item>)
    requires Pairwise(env)
    ensures var s := FirstFit(env, cands); env <= s.env && Pairwise(s.env)
    ensures var s := FirstFit(env, cands); multiset(s.env) + multiset(s.rest) == multiset(env) + multiset(cands)
    ensures var s := FirstFit(env, cands); forall x | x in s.rest :: x in cands && Conflicts(s.env, x)
    decreases |cands|
  {
    hide CanCombine, Fits, Pairwise, Conflicts, FirstFit;
    if cands == [] {
      FirstFitNil(env);
    } else {
      var c, more := cands[0], cands[1..];
      assert cands == [c] + more;
      assert multiset(cands) == multiset{c} + multiset(more);
      FirstFitStep(env, c, more);
      if Fits(env, c) {
        FitsPairwise(env, c);
        FirstFitSpec(env + [c], more);
        assert multiset(env + [c]) == multiset(env) + multiset{c};
      } else {
        FirstFitSpec(env, more);
        var t := FirstFit(env, more);
        NotFitting(env, t.env, c);
        assert multiset([c] + t.rest) == multiset{c} + multiset(t.rest);
        SameWithOneMore(multiset(t.env), multiset(t.rest), multiset(env), multiset(more), multiset{c});
        forall x | x in [c] + t.rest ensures x in cands && Conflicts(t.env, x) {
          if x in t.rest { assert x in more; }
        }
      }
    }
  }

  lemma SameWithOneMore(a: multiset<Item>, t: multiset<Item>, e: multiset<Item>, m: multiset<Item>, c: multiset<Item>)
    requires a + t == e + m
    ensures a + (c + t) == e + (c + m)
  {
    assert a + (c + t) == (a + t) + c;
    assert e + (c + m) == (e + m) + c;
  }

  lemma FirstFitNil(env: seq<Item>)
    ensures FirstFit(env, []) == Split(env, [])
  {
  }

  lemma FitsPairwise(env: seq<Item>, c: Item)
    requires Pairwise(env) && Fits(env, c)
    ensures Pairwise(env + [c])
  {
    hide CanCombine;
    assert forall i | 0 <= i < |env| :: env[i] in env;
    assert forall i | 0 <= i < |env| :: CanCombine(env[i].template, c.template);
  }

  lemma NotFitting(env: seq<Item>, bigger: seq<Item>, c: Item)
    requires !Fits(env, c) && env <= bigger
    ensures Conflicts(bigger, c)
  {
    hide CanCombine;
    var e :| e in env && !CanCombine(e.template, c.template);
    assert e in bigger;
  }

  /**
   * The envelopes of a party hold its items, each exactly as often as given; the items of one envelope can
   * all be combined with one another; and every item conflicts with an item of every earlier envelope.
   */
  lemma {:induction false} GreedySpec(list: seq<Item>)
    ensures var envs := Greedy(list);
            && multiset(Flatten(envs)) == multiset(list)
            && (forall i | 0 <= i < |envs| :: envs[i] != [] && Pairwise(envs[i]))
            && (forall i, j, x | 0 <= i < j < |envs| && x in envs[j] :: Conflicts(envs[i], x))
    decreases |list|
  {
    hide CanCombine, Conflicts, Pairwise, FirstFit;
    if list != [] {
      FirstFitSizes([list[0]], list[1..]);
      var s := FirstFit([list[0]], list[1..]);
      PairwiseOne(list[0]);
      FirstFitSpec([list[0]], list[1..]);
      GreedySpec(s.rest);
      var envs, later := Greedy(list), Greedy(s.rest);
      assert list == [list[0]] + list[1..];
      assert multiset(list) == multiset([list[0]]) + multiset(list[1..]);
      assert envs == [s.env] + later;
      assert Flatten(envs) == s.env + Flatten(later);
      LaterConflict(s.env, s.rest, later);
    }
  }

  lemma LaterConflict(env: seq<Item>, rest: seq<Item>, later: seq<seq<Item>>)
    requires multiset(Flatten(later)) == multiset(rest) && forall x | x in rest :: Conflicts(env, x)
    requires forall i, j, x | 0 <= i < j < |later| && x in later[j] :: Conflicts(later[i], x)
    ensures var envs := [env] + later; forall i, j, x | 0 <= i < j < |envs| && x in envs[j] :: Conflicts(envs[i], x)
  {
    hide Conflicts, Flatten;
    var envs := [env] + later;
    forall i, j, x | 0 <= i < j < |envs| && x in envs[j] ensures Conflicts(envs[i], x) {
      assert envs[j] == later[j - 1];
      if i == 0 {
        FlattenIn(later, j - 1, x);
        assert x in multiset(Flatten(later));
      } else {
        assert envs[i] == later[i - 1];
      }
    }
  }

  lemma PairwiseOne(x: Item)
    ensures Pairwise([x])
  {
  }

  lemma {:induction false} FlattenIn(envs: seq<seq<Item>>, i: nat, x: Item)
    requires i < |envs| && x in envs[i]
    ensures x in Flatten(envs)
  {
    if i > 0 { FlattenIn(envs[1..], i - 1, x); }
  }

  // ---- how many envelopes

  /** How many items of `list` cannot share an envelope with `x`. */
  function ConflictCount(x: Item, list: seq<Item>): nat {
    if list == [] then 0
    else (if CanCombine(x.template, list[0].template) then 0 else 1) + ConflictCount(x, list[1..])
  }

  lemma {:induction false} CountSplit(x: Item, env: seq<Item>, cands: seq<Item>)
    ensures var s := FirstFit(env, cands);
            ConflictCount(x, s.env) + ConflictCount(x, s.rest) == ConflictCount(x, env) + ConflictCount(x, cands)
    decreases |cands|
  {
    hide CanCombine, Fits;
    if cands != [] {
      if Fits(env, cands[0]) {
        CountSplit(x, env + [cands[0]], cands[1..]);
        CountSnoc(x, env, cands[0]);
      } else {
        CountSplit(x, env, cands[1..]);
        var s := FirstFit(env, cands[1..]);
        assert ([cands[0]] + s.rest)[1..] == s.rest;
      }
    }
  }

  lemma {:induction false} CountSnoc(x: Item, list: seq<Item>, y: Item)
    ensures ConflictCount(x, list + [y]) == ConflictCount(x, list) + (if CanCombine(x.template, y.template) then 0 else 1)
  {
    hide CanCombine;
    if list == [] {
      assert [] + [y] == [y] && [y][1..] == [];
    } else {
      CountSnoc(x, list[1..], y);
      assert (list + [y])[1..] == list[1..] + [y];
    }
  }

  lemma {:induction false} CountPositive(x: Item, env: seq<Item>)
    requires Conflicts(env, x)
    ensures ConflictCount(x, env) >= 1
  {
    var e :| e in env && !CanCombine(e.template, x.template);
    CombineSymmetric(e.template, x.template);
    if env[0] != e {
      assert e in env[1..];
      CountPositive(x, env[1..]);
    }
  }

  /** A party gets at most one envelope more than the conflicts of some one of its items. */
  lemma {:induction false} EnvelopeBound(list: seq<Item>) returns (x: Item)
    requires list != []
    ensures x in list && |Greedy(list)| <= 1 + ConflictCount(x, list)
    decreases |list|
  {
    hide CanCombine;
    FirstFitSizes([list[0]], list[1..]);
    var s := FirstFit([list[0]], list[1..]);
    if s.rest == [] {
      x := list[0];
      assert Greedy(s.rest) == [];
    } else {
      x := EnvelopeBound(s.rest);
      PairwiseOne(list[0]);
      FirstFitSpec([list[0]], list[1..]);
      CountPositive(x, s.env);
      CountSplit(x, [list[0]], list[1..]);
      CountCons(x, list);
    }
  }

  lemma CountCons(x: Item, list: seq<Item>)
    requires list != []
    ensures ConflictCount(x, list) == ConflictCount(x, [list[0]]) + ConflictCount(x, list[1..])
  {
    hide CanCombine;
    assert [list[0]][1..] == [];
  }

  // ---- planning as the source runs it

  /** What a pass over the candidates keeps: `remaining` is the candidates set aside, then those not yet looked at. */
  method FillEnvelope(remaining: seq<Item>) returns (env: seq<Item>, rest: seq<Item>)
    requires remaining != []
    ensures Split(env, rest) == FirstFit([remaining[0]], remaining[1..])
  {
    hide FirstFit, CanCombine, Fits;
    var first := remaining[0];
    rest := remaining[1..];
    env := [first];
    var snapshot := rest;
    ghost var aside: seq<Item> := [];
    for k := 0 to |snapshot|
      invariant rest == aside + snapshot[k..]
      invariant forall x | x in aside :: !Fits(env, x)
      invariant var s := FirstFit(env, snapshot[k..]); FirstFit([first], remaining[1..]) == Split(s.env, aside + s.rest)
    {
      var cand := snapshot[k];
      assert snapshot[k..] == [cand] + snapshot[k + 1..];
      FirstFitStep(env, cand, snapshot[k + 1..]);
      if Fits(env, cand) {
        RemoveAfter(aside, cand, snapshot[k + 1..]);
        MoreMisfits(env, cand, aside);
        env := env + [cand];
        rest := RemoveFirst(rest, cand);
      } else {
        assert aside + ([cand] + FirstFit(env, snapshot[k + 1..]).rest) == aside + [cand] + FirstFit(env, snapshot[k + 1..]).rest;
        aside := aside + [cand];
      }
    }
    assert rest == aside;
    FirstFitNil(env);
  }

  /** `list.splice(list.indexOf(x), 1)`. */
  function RemoveFirst(list: seq<Item>, x: Item): seq<Item>
    requires x in list
  {
    if list[0] == x then list[1..] else [list[0]] + RemoveFirst(list[1..], x)
  }

  lemma {:induction false} RemoveAfter(aside: seq<Item>, x: Item, rest: seq<Item>)
    requires x !in aside
    ensures x in aside + ([x] + rest)
    ensures RemoveFirst(aside + ([x] + rest), x) == aside + rest
  {
    var list := aside + ([x] + rest);
    assert list[|aside|] == x;
    if aside == [] {
      assert list[1..] == rest;
      assert [] + rest == rest;
    } else {
      RemoveAfter(aside[1..], x, rest);
      assert list[0] == aside[0] && aside[0] in aside;
      assert list[1..] == aside[1..] + ([x] + rest);
      assert aside + rest == [aside[0]] + (aside[1..] + rest);
    }
  }

  lemma MoreMisfits(env: seq<Item>, cand: Item, aside: seq<Item>)
    requires forall x | x in aside :: !Fits(env, x)
    ensures forall x | x in aside :: !Fits(env + [cand], x)
    ensures Fits(env, cand) ==> cand !in aside
  {
    forall x | x in aside ensures !Fits(env + [cand], x) {
      var e :| e in env && !CanCombine(e.template, x.template);
      assert e in env + [cand];
    }
  }

  /** The items of each party, and nothing for the others. */
  ghost predicate Grouped(parties: seq<string>, byParty: map<string, seq<Item>>, items: seq<Item>) {
    && parties == Parties(items)
    && (forall p :: p in byParty <==> p in parties)
    && (forall p | p in parties :: byParty[p] == ItemsOf(p, items))
    && (forall p | p !in parties :: ItemsOf(p, items) == [])
  }

  lemma GroupOneMore(parties: seq<string>, byParty: map<string, seq<Item>>, items: seq<Item>, it: Item)
    requires Grouped(parties, byParty, items)
    ensures var known := it.partyId in byParty;
            Grouped(if known then parties else parties + [it.partyId],
                    byParty[it.partyId := (if known then byParty[it.partyId] else []) + [it]],
                    items + [it])
  {
    hide ItemsOf;
    assert (items + [it])[..|items|] == items;
    forall p ensures ItemsOf(p, items + [it]) == ItemsOf(p, items) + (if it.partyId == p then [it] else []) {
      ItemsOfSnoc(p, items, it);
    }
  }

  lemma GroupNone()
    ensures Grouped([], map[], [])
  {
  }

  method GroupByParty(items: seq<Item>) returns (parties: seq<string>, byParty: map<string, seq<Item>>)
    ensures Grouped(parties, byParty, items)
  {
    hide Grouped;
    parties, byParty := [], map[];
    assert items[..0] == [];
    GroupNone();
    for i := 0 to |items|
      invariant Grouped(parties, byParty, items[..i])
    {
      var it := items[i];
      GroupOneMore(parties, byParty, items[..i], it);
      assert items[..i + 1] == items[..i] + [it];
      var l := if it.partyId in byParty then byParty[it.partyId] else [];
      if it.partyId !in byParty {
        parties := parties + [it.partyId];
      }
      byParty := byParty[it.partyId := l + [it]];
    }
    assert items[..|items|] == items;
  }

  /** `planEnvelopes`: items grouped by party in the order parties first appear, each group packed first-fit. */
  method PlanEnvelopes(items: seq<Item>) returns (out: seq<Envelope>)
    ensures out == PlanFor(Parties(items), items)
  {
    hide ItemsOf, Greedy, Parties;
    var parties, byParty := GroupByParty(items);
    out := [];
    for k := 0 to |parties|
      invariant out == PlanFor(parties[..k], items)
    {
      assert parties[k] in parties;
      assert parties[..k + 1][..k] == parties[..k];
      var envs := PackParty(byParty[parties[k]]);
      out := out + Enveloped(parties[k], envs);
    }
    assert parties[..|parties|] == parties;
  }

  method PackParty(list: seq<Item>) returns (envs: seq<seq<Item>>)
    ensures envs == Greedy(list)
  {
    var remaining := list;
    envs := [];
    while remaining != []
      invariant Greedy(list) == envs + Greedy(remaining)
      decreases |remaining|
    {
      FirstFitSizes([remaining[0]], remaining[1..]);
      var env, rest := FillEnvelope(remaining);
      assert envs + ([env] + Greedy(rest)) == envs + [env] + Greedy(rest);
      envs := envs + [env];
      remaining := rest;
    }
  }

  lemma {:induction false} ItemsOfSnoc(p: string, items: seq<Item>, it: Item)
    ensures ItemsOf(p, items + [it]) == ItemsOf(p, items) + (if it.partyId == p then [it] else [])
  {
    if items == [] {
      assert [] + [it] == [it] && [it][1..] == [];
    } else {
      ItemsOfSnoc(p, items[1..], it);
      assert (items + [it])[1..] == items[1..] + [it];
    }
  }

  // ---- the whole plan

  ghost predicate HasItem(items: seq<Item>, p: string) {
    exists k :: 0 <= k < |items| && items[k].partyId == p
  }

  lemma HasItemSnoc(items: seq<Item>, p: string)
    requires items != []
    ensures HasItem(items, p) <==> HasItem(items[..|items| - 1], p) || items[|items| - 1].partyId == p
  {
    var init := items[..|items| - 1];
    if HasItem(init, p) {
      var k :| 0 <= k < |init| && init[k].partyId == p;
      assert items[k].partyId == p;
    }
    if HasItem(items, p) {
      var k :| 0 <= k < |items| && items[k].partyId == p;
      if k < |init| { assert init[k].partyId == p; }
    }
  }

  lemma {:induction false} PartiesOnce(items: seq<Item>)
    ensures var ps := Parties(items);
            && (forall i, j | 0 <= i < j < |ps| :: ps[i] != ps[j])
            && forall p :: p in ps <==> HasItem(items, p)
  {
    hide HasItem;
    if items != [] {
      PartiesOnce(items[..|items| - 1]);
      forall p ensures p in Parties(items) <==> HasItem(items, p) {
        HasItemSnoc(items, p);
      }
    } else {
      forall p ensures !HasItem(items, p) { NoItem(p); }
    }
  }

  lemma NoItem(p: string)
    ensures !HasItem([], p)
  {
  }

  function EnvelopesFor(party: string, envs: seq<Envelope>): seq<seq<Item>> {
    if envs == [] then []
    else (if envs[0].partyId == party then [envs[0].items] else []) + EnvelopesFor(party, envs[1..])
  }

  lemma EnvelopesForCons(party: string, e: Envelope, b: seq<Envelope>)
    ensures EnvelopesFor(party, [e] + b) == (if e.partyId == party then [e.items] else []) + EnvelopesFor(party, b)
  {
    assert ([e] + b)[1..] == b;
  }

  lemma {:induction false} EnvelopesForConcat(party: string, a: seq<Envelope>, b: seq<Envelope>)
    ensures EnvelopesFor(party, a + b) == EnvelopesFor(party, a) + EnvelopesFor(party, b)
  {
    if a == [] {
      assert a + b == b;
    } else {
      EnvelopesForConcat(party, a[1..], b);
      hide EnvelopesFor;
      assert a == [a[0]] + a[1..] && a + b == [a[0]] + (a[1..] + b);
      EnvelopesForCons(party, a[0], a[1..]);
      EnvelopesForCons(party, a[0], a[1..] + b);
    }
  }

  lemma {:induction false} EnvelopesForOne(party: string, p: string, envs: seq<seq<Item>>, r: seq<Envelope>)
    requires |r| == |envs| && forall i | 0 <= i < |r| :: r[i].partyId == p && r[i].items == envs[i]
    ensures EnvelopesFor(party, r) == if party == p then envs else []
  {
    if r != [] {
      EnvelopesForOne(party, p, envs[1..], r[1..]);
      assert r[0].items == envs[0];
      assert envs == [envs[0]] + envs[1..];
    } else {
      assert envs == [];
    }
  }

  lemma {:induction false} PlanForParty(parties: seq<string>, items: seq<Item>, party: string)
    requires forall i, j | 0 <= i < j < |parties| :: parties[i] != parties[j]
    ensures EnvelopesFor(party, PlanFor(parties, items)) == if party in parties then Greedy(ItemsOf(party, items)) else []
  {
    if parties != [] {
      var init, last := parties[..|parties| - 1], parties[|parties| - 1];
      PlanForParty(init, items, party);
      var envs := Greedy(ItemsOf(last, items));
      EnvelopesForConcat(party, PlanFor(init, items), Enveloped(last, envs));
      EnvelopesForOne(party, last, envs, Enveloped(last, envs));
      assert party in parties <==> party in init || party == last;
      if party == last { assert party !in init; }
    }
  }

  /**
   * In the plan of any batch, the envelopes of a party hold exactly that party's items, in envelopes whose
   * items combine pairwise; every item conflicts with an item of each earlier envelope of its party; and
   * the party gets at most one envelope more than the conflicts of some one of its items.
   */
  lemma PlanGuarantees(items: seq<Item>, party: string) returns (x: Item)
    requires HasItem(items, party)
    ensures var envs := EnvelopesFor(party, PlanFor(Parties(items), items));
            var own := ItemsOf(party, items);
            && multiset(Flatten(envs)) == multiset(own)
            && (forall i | 0 <= i < |envs| :: envs[i] != [] && Pairwise(envs[i]))
            && (forall i, j, y | 0 <= i < j < |envs| && y in envs[j] :: Conflicts(envs[i], y))
            && x in own && |envs| <= 1 + ConflictCount(x, own)
  {
    PartiesOnce(items);
    PlanForParty(Parties(items), items, party);
    var own := ItemsOf(party, items);
    GreedySpec(own);
    var k :| 0 <= k < |items| && items[k].partyId == party;
    ItemsOfIn(party, items, k);
    x := EnvelopeBound(own);
  }

  lemma {:induction false} ItemsOfIn(party: string, items: seq<Item>, k: nat)
    requires k < |items| && items[k].partyId == party
    ensures items[k] in ItemsOf(party, items)
  {
    if k > 0 { ItemsOfIn(party, items[1..], k - 1); }
  }

  /** An envelope's separate documents are exactly the notices in it that must be separate. */
  lemma {:induction false} SeparateExact(env: seq<Item>)
    ensures forall id :: id in SeparatePdfs(env) <==> exists i | 0 <= i < |env| :: env[i].noticeId == id && env[i].template.separateDocument
  {
    if env != [] {
      SeparateExact(env[1..]);
      forall id ensures id in SeparatePdfs(env) <==> exists i | 0 <= i < |env| :: env[i].noticeId == id && env[i].template.separateDocument {
        if i :| 0 <= i < |env[1..]| && env[1..][i].noticeId == id && env[1..][i].template.separateDocument {
          assert env[i + 1].noticeId == id && env[i + 1].template.separateDocument;
        }
        if i :| 0 <= i < |env| && env[i].noticeId == id && env[i].template.separateDocument {
          if i > 0 { assert env[1..][i - 1] == env[i]; }
        }
      }
    }
  }
}
