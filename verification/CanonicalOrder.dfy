/**
 * What the header of the canonical serialiser promises (src/app/canonical.ts:5-6) and the copies do not always
 * keep: keys sorted at every depth, every member there, dates as their ISO text.
 */
module CanonicalOrder {
  import opened JsonText
  import opened KeyOrder
  import opened CanonicalJson

  /** The keys of every object of a document stand in sorted order. */
  predicate DocSorted(d: Doc) {
    match d
    case DArr(items) => forall i | 0 <= i < |items| :: DocSorted(items[i])
    case DObj(ms) => (forall i, j | 0 <= i < j < |ms| :: LexLess(ms[i].key, ms[j].key)) && forall i | 0 <= i < |ms| :: DocSorted(ms[i].value)
    case _ => true
  }

  /** Among the kept keys, no array index comes in front of a key that sorts before it. */
  predicate OwnSorted(c: Copy, ms: seq<Member>) {
    forall i, j | 0 <= i < |ms| && 0 <= j < |ms| && Keeps(c, ms[i]) && Keeps(c, ms[j])
      && IsIndex(ms[i].key) && KeyLess(ms[i].key, ms[j].key) :: LexLess(ms[i].key, ms[j].key)
  }

  /** The same of every object in a value that its text has. */
  predicate ValueSorted(c: Copy, v: Js) {
    match v
    case Arr(items) => forall i | 0 <= i < |items| :: ValueSorted(c, items[i])
    case Obj(ms) => OwnSorted(c, ms) && forall i | 0 <= i < |ms| && Keeps(c, ms[i]) :: ValueSorted(c, ms[i].value)
    case _ => true
  }

  /** The keys of one object come out sorted exactly when no array index among them comes before a key that sorts first. */
  lemma OrderExact(c: Copy, ms: seq<Member>)
    requires DistinctMembers(ms)
    ensures LexSorted(PrintOrder(c, ms)) <==> OwnSorted(c, ms)
  {
    hide PrintOrder, LexLess, KeyLess, IsIndex, Find, Keeps;
    var ks := PrintOrder(c, ms);
    PrintOrderSorted(c, ms);
    if OwnSorted(c, ms) {
      forall p, q | 0 <= p < q < |ks| ensures LexLess(ks[p], ks[q]) {
        assert ks[p] in ks && ks[q] in ks && KeyLess(ks[p], ks[q]);
        var i, j := Find(ms, ks[p]), Find(ms, ks[q]);
        assert ms[i].key == ks[p] && ms[j].key == ks[q];
        if !IsIndex(ks[p]) { NamesSorted(ks[p], ks[q]); }
      }
    }
    if LexSorted(ks) {
      forall i, j | 0 <= i < |ms| && 0 <= j < |ms| && Keeps(c, ms[i]) && Keeps(c, ms[j])
        && IsIndex(ms[i].key) && KeyLess(ms[i].key, ms[j].key) ensures LexLess(ms[i].key, ms[j].key)
      {
        FindUnique(ms, i);
        FindUnique(ms, j);
        var p :| 0 <= p < |ks| && ks[p] == ms[i].key;
        var q :| 0 <= q < |ks| && ks[q] == ms[j].key;
        KeyOrderTotal(ks[p], ks[q], []);
        assert !(q < p) by { if q < p { Follows(ks, q, p); } }
      }
    }
  }

  lemma Follows(ks: seq<Text>, p: nat, q: nat)
    requires KeySorted(ks) && p < q < |ks|
    ensures KeyLess(ks[p], ks[q])
  {
  }

  /** Keys that are no array indices come out in sorted order. */
  lemma NamesSorted(a: Text, b: Text)
    requires KeyLess(a, b) && !IsIndex(a)
    ensures LexLess(a, b)
  {
    hide IsIndex, LexLess;
  }

  /**
   * A canonical text has its keys sorted at every depth exactly when in no object of the value, of those the
   * text has, an array index comes in front of a key that sorts before it.
   */
  lemma {:induction false} SortedExact(c: Copy, v: Js)
    requires Valid(v)
    ensures DocSorted(DocOf(c, v)) <==> ValueSorted(c, v)
    decreases v
  {
    hide ItemDocs, MemberDocs, PrintOrder, ObjectDocs, BigText, IsNumText, OwnSorted, LexLess, Keeps, Find;
    if v.Arr? {
      HeadItems(c, v);
      forall i | 0 <= i < |v.items| ensures DocSorted(ItemDocs(c, v.items)[i]) <==> ValueSorted(c, v.items[i]) {
        ItemDocsAt(c, v.items, i);
        SortedExact(c, v.items[i]);
      }
    } else if v.Obj? {
      HeadObject(c, v);
      forall i | 0 <= i < |v.members| ensures DocSorted(DocOf(c, v.members[i].value)) <==> ValueSorted(c, v.members[i].value) {
        SortedExact(c, v.members[i].value);
      }
      ObjectSorted(c, v.members);
    }
  }

  lemma ObjectSorted(c: Copy, ms: seq<Member>)
    requires DistinctMembers(ms)
    ensures DocSorted(DObj(ObjectDocs(c, ms))) <==>
            OwnSorted(c, ms) && forall i | 0 <= i < |ms| && Keeps(c, ms[i]) :: DocSorted(DocOf(c, ms[i].value))
  {
    hide ObjectDocs, PrintOrder, OwnSorted, LexLess, Keeps, Find, DocOf, KeySorted;
    OrderExact(c, ms);
    ObjectDocsAt(c, ms);
    var ks, ds := PrintOrder(c, ms), ObjectDocs(c, ms);
    if forall i | 0 <= i < |ds| :: DocSorted(ds[i].value) {
      forall i | 0 <= i < |ms| && Keeps(c, ms[i]) ensures DocSorted(DocOf(c, ms[i].value)) {
        FindUnique(ms, i);
        var p :| 0 <= p < |ks| && ks[p] == ms[i].key;
        assert ds[p].value == DocOf(c, ms[i].value);
      }
    }
    if forall i | 0 <= i < |ms| && Keeps(c, ms[i]) :: DocSorted(DocOf(c, ms[i].value)) {
      forall p | 0 <= p < |ds| ensures DocSorted(ds[p].value) {
        assert ks[p] in ks;
        assert Keeps(c, ms[Find(ms, ks[p])]);
      }
    }
  }

  const TEN: Text := [0x31, 0x30]
  const NINE: Text := [0x39]

  /** The object with the members "10" and "9" comes out with "9" first, although "10" sorts before it. */
  lemma NumeralsUnsorted()
    ensures var ms := [Member(TEN, Null), Member(NINE, Null)];
            && Valid(Obj(ms)) && !LexSorted(PrintOrder(App, ms)) && !DocSorted(DocOf(App, Obj(ms)))
  {
    var ms := [Member(TEN, Null), Member(NINE, Null)];
    assert ms[1].key == NINE && ms[0].key == TEN;
    assert IsIndex(NINE) && KeyLess(NINE, TEN) && !LexLess(NINE, TEN);
    assert Keeps(App, ms[0]) && Keeps(App, ms[1]);
    OrderExact(App, ms);
    SortedExact(App, Obj(ms));
  }

  // ---- members and dates

  /** No defined member called `__proto__`, at any depth. */
  predicate NoProto(v: Js) {
    match v
    case Arr(items) => forall i | 0 <= i < |items| :: NoProto(items[i])
    case Obj(ms) => forall i | 0 <= i < |ms| && ms[i].value != Undefined :: ms[i].key != PROTO && NoProto(ms[i].value)
    case _ => true
  }

  lemma {:induction false} NoProtoAlike(v: Js)
    ensures NoProto(v) <==> Alike(App, Declared, v)
  {
    match v
    case Arr(items) => forall i | 0 <= i < |items| { NoProtoAlike(items[i]); }
    case Obj(ms) => forall i | 0 <= i < |ms| { NoProtoAlike(ms[i].value); }
    case _ =>
  }

  /** The command bus's text is the declared one exactly when the value has no defined `__proto__` member. */
  lemma ProtoExact(v: Js)
    requires Valid(v)
    ensures CanonicalText(App, v) == CanonicalText(Declared, v) <==> NoProto(v)
  {
    hide CanonicalText, Valid, Alike, NoProto;
    TextsAgree(App, Declared, v);
    NoProtoAlike(v);
  }

  /** No date, at any depth. */
  predicate NoDate(v: Js) {
    match v
    case Date(_) => false
    case Arr(items) => forall i | 0 <= i < |items| :: NoDate(items[i])
    case Obj(ms) => forall i | 0 <= i < |ms| && ms[i].value != Undefined :: NoDate(ms[i].value)
    case _ => true
  }

  lemma {:induction false} NoDateAlike(v: Js)
    ensures NoDate(v) <==> Alike(Notices, Declared, v)
  {
    match v
    case Arr(items) => forall i | 0 <= i < |items| { NoDateAlike(items[i]); }
    case Obj(ms) => forall i | 0 <= i < |ms| { NoDateAlike(ms[i].value); }
    case _ =>
  }

  /** The notice renderer's text is the declared one exactly when the value has no date. */
  lemma DateExact(v: Js)
    requires Valid(v) && v != Undefined
    ensures CanonicalText(Notices, v) == CanonicalText(Declared, v) <==> NoDate(v)
  {
    hide CanonicalText, Valid, Alike, NoDate;
    TextsAgree(Notices, Declared, v);
    NoDateAlike(v);
  }

  /** Every date is `{}` to the notice renderer's copy, so two dates share a text. */
  lemma DatesEmptied(a: Text, b: Text)
    ensures CanonicalText(Notices, Date(a)) == [OPEN_OBJ, CLOSE_OBJ] == CanonicalText(Notices, Date(b))
    ensures CanonicalText(Notices, Date(a)) != CanonicalText(Declared, Date(a))
  {
    DateExact(Date(a));
    assert DocOf(Notices, Date(a)) == DObj([]) == DocOf(Notices, Date(b));
    assert PrintMembers([]) == [];
  }
}
