/**
 * The two canonical serialisers (src/app/canonical.ts:10-24 and src/notices/render.ts:19-27): when their
 * texts are equal, and when the two agree.
 */
module CanonicalJson {
  import opened JsonText
  import opened KeyOrder
  import opened Decimal

  /** A value handed to a serialiser.  A finite number is given by its own text; a date by its ISO text. */
  datatype Js =
    | Undefined
    | Null
    | Bool(b: bool)
    | Num(digits: Text)
    | NotFinite
    | Big(n: int)
    | Str(s: Text)
    | Date(iso: Text)
    | Arr(items: seq<Js>)
    | Obj(members: seq<Member>)

  /** An own member; an object lists its members in enumeration order, no key twice. */
  datatype Member = Member(key: Text, value: Js)

  /**
   * Which serialiser: the command bus's copy, the notice renderer's, or the one the first one's header
   * declares (src/app/canonical.ts:5-6), which neither copy is on all values.
   */
  datatype Copy = App | Notices | Declared

  /** "__proto__": assigning it on a fresh object sets the prototype and makes no member. */
  const PROTO: Text := [0x5F, 0x5F, 0x70, 0x72, 0x6F, 0x74, 0x6F, 0x5F, 0x5F]

  function KeysOf(ms: seq<Member>): (ks: seq<Text>)
    ensures |ks| == |ms| && forall i | 0 <= i < |ms| :: ks[i] == ms[i].key
  {
    seq(|ms|, i requires 0 <= i < |ms| => ms[i].key)
  }

  predicate Valid(v: Js) {
    match v
    case Num(t) => IsNumText(t)
    case Arr(items) => forall i | 0 <= i < |items| :: Valid(items[i])
    case Obj(ms) => DistinctMembers(ms) && forall i | 0 <= i < |ms| :: Valid(ms[i].value)
    case _ => true
  }

  predicate DistinctMembers(ms: seq<Member>) {
    forall i, j | 0 <= i < j < |ms| :: ms[i].key != ms[j].key
  }

  function DigitUnits(ds: seq<Digit>): (t: Text)
    ensures |t| == |ds| && forall i | 0 <= i < |ds| :: t[i] == 0x30 + (ds[i] as int)
  {
    seq(|ds|, i requires 0 <= i < |ds| => 0x30 + (ds[i] as int))
  }

  /** `n.toString()` of a bigint. */
  function BigText(n: int): Text {
    if n < 0 then [0x2D] + DigitUnits(Digits(-n)) else DigitUnits(Digits(n))
  }

  /** The position of the member with key `k`. */
  function Find(ms: seq<Member>, k: Text): (i: nat)
    requires k in KeysOf(ms)
    ensures i < |ms| && ms[i].key == k
  {
    if ms[0].key == k then 0
    else
      assert ms == [ms[0]] + ms[1..];
      assert exists j :: 0 <= j < |ms| && ms[j].key == k;
      assert KeysOf(ms[1..]) == KeysOf(ms)[1..];
      1 + Find(ms[1..], k)
  }

  lemma FindUnique(ms: seq<Member>, i: nat)
    requires DistinctMembers(ms) && i < |ms|
    ensures ms[i].key in KeysOf(ms) && Find(ms, ms[i].key) == i
  {
    assert KeysOf(ms)[i] == ms[i].key;
    var j := Find(ms, ms[i].key);
    assert ms[j].key == ms[i].key;
  }

  // ---- what the serialisers print

  /** A value after its own conversion: bigints and dates are gone, what is left out of JSON is null. */
  datatype Head = HNull | HBool(b: bool) | HNum(digits: Text) | HStr(s: Text) | HArr(items: seq<Js>) | HObj(members: seq<Member>)

  /** `canon` and `norm` at the top of a value; the notice renderer's copy sees no own keys in a date. */
  function HeadOf(c: Copy, v: Js): (h: Head)
    ensures h.HArr? ==> v.Arr? && h.items == v.items
    ensures h.HObj? ==> h.members == [] || (v.Obj? && h.members == v.members)
  {
    match v
    case Undefined => HNull
    case Null => HNull
    case NotFinite => HNull
    case Bool(b) => HBool(b)
    case Num(t) => HNum(t)
    case Big(n) => HStr(BigText(n))
    case Str(s) => HStr(s)
    case Date(iso) => if c.Notices? then HObj([]) else HStr(iso)
    case Arr(items) => HArr(items)
    case Obj(ms) => HObj(ms)
  }

  /** The members the text has: defined ones, and for the command bus's copy none called `__proto__`. */
  predicate Keeps(c: Copy, m: Member) {
    m.value != Undefined && (c.App? ==> m.key != PROTO)
  }

  function KeptBy(c: Copy, ms: seq<Member>): Text -> bool {
    k => k in KeysOf(ms) && Keeps(c, ms[Find(ms, k)])
  }

  /**
   * The keys of an object in the order its text has them.  The command bus's copy assigns the kept members
   * one after the other; the notice renderer's makes all of them members and leaves the undefined ones to
   * `JSON.stringify` to skip.
   */
  function PrintOrder(c: Copy, ms: seq<Member>): seq<Text> {
    var sorted := Sort(KeysOf(ms));
    if c.App? then EnumOrder(Filter(KeptBy(c, ms), sorted)) else Filter(KeptBy(c, ms), EnumOrder(sorted))
  }

  function DocOf(c: Copy, v: Js): Doc
    decreases v, 0
  {
    match HeadOf(c, v)
    case HNull => DNull
    case HBool(b) => DBool(b)
    case HNum(t) => DNum(t)
    case HStr(s) => DStr(s)
    case HArr(items) => DArr(ItemDocs(c, items))
    case HObj(ms) => if ms == [] then DObj([]) else DObj(MemberDocs(c, ms, PrintOrder(c, ms)))
  }

  function ItemDocs(c: Copy, items: seq<Js>): (ds: seq<Doc>)
    ensures |ds| == |items|
    decreases items, 0
  {
    if items == [] then [] else [DocOf(c, items[0])] + ItemDocs(c, items[1..])
  }

  function MemberDocs(c: Copy, ms: seq<Member>, ks: seq<Text>): (ds: seq<DocMember>)
    decreases ms, |ks|
  {
    if ks == [] then []
    else (if ks[0] in KeysOf(ms) then [DocMember(ks[0], DocOf(c, ms[Find(ms, ks[0])].value))] else []) + MemberDocs(c, ms, ks[1..])
  }

  /** The canonical text. */
  function CanonicalText(c: Copy, v: Js): Text
    requires v == Undefined ==> !c.Notices?  // `JSON.stringify(undefined)` is no text
  {
    Print(DocOf(c, v))
  }

  // ---- what a text stands for

  function UnitDigits(t: Text): seq<Digit>
    requires forall i | 0 <= i < |t| :: 0x30 <= t[i] <= 0x39
  {
    seq(|t|, i requires 0 <= i < |t| => t[i] - 0x30)
  }

  /** `t` is the decimal digits, without leading zeros, that read as `a`. */
  predicate SpellsNat(t: Text, a: nat) {
    && t != []
    && (forall i | 0 <= i < |t| :: 0x30 <= t[i] <= 0x39)
    && (|t| > 1 ==> t[0] != 0x30)
    && Value(UnitDigits(t)) == a
  }

  /** A negative number has a minus sign in front of its amount. */
  predicate SpellsInt(t: Text, n: int) {
    if n < 0 then t != [] && t[0] == 0x2D && SpellsNat(t[1..], -n) else SpellsNat(t, n)
  }

  /**
   * The document `d` says what the value `v` is.  A boolean, a number or a string is itself, a bigint its
   * decimal text, a date its ISO text, or an empty object in the notice renderer's copy; what JSON has no word
   * for is null.  An array is its items in order, an object its members.
   */
  predicate Means(c: Copy, v: Js, d: Doc)
    decreases v, 0
  {
    match v
    case Undefined => d == DNull
    case Null => d == DNull
    case NotFinite => d == DNull
    case Bool(b) => d == DBool(b)
    case Num(t) => d == DNum(t)
    case Str(s) => d == DStr(s)
    case Big(n) => d.DStr? && SpellsInt(d.s, n)
    case Date(iso) => d == if c.Notices? then DObj([]) else DStr(iso)
    case Arr(items) => d.DArr? && |d.items| == |items| && forall i | 0 <= i < |items| :: Means(c, items[i], d.items[i])
    case Obj(ms) => d.DObj? && MembersMean(c, ms, d.members)
  }

  /** The defined members, except `__proto__` in the command bus's copy, and no others, each once, in whatever order. */
  predicate MembersMean(c: Copy, ms: seq<Member>, ds: seq<DocMember>)
    decreases ms, 0
  {
    && (forall j, k | 0 <= j < k < |ds| :: ds[j].key != ds[k].key)
    && (forall j | 0 <= j < |ds| ::
          exists i | 0 <= i < |ms| :: ms[i].key == ds[j].key && ms[i].value != Undefined && (c.App? ==> ms[i].key != PROTO))
    && (forall i | 0 <= i < |ms| && ms[i].value != Undefined && (c.App? ==> ms[i].key != PROTO) ::
          exists j | 0 <= j < |ds| :: ds[j].key == ms[i].key && Means(c, ms[i].value, ds[j].value))
  }

  // ---- the order and the content of an object's text

  /** The text lists exactly the kept keys, in key order, whatever order the object had them in. */
  lemma PrintOrderSorted(c: Copy, ms: seq<Member>)
    requires DistinctMembers(ms)
    ensures KeySorted(PrintOrder(c, ms))
    ensures forall k :: k in PrintOrder(c, ms) <==> k in KeysOf(ms) && Keeps(c, ms[Find(ms, k)])
  {
    hide KeyLess, LexLess, Sort, EnumOrder, Filter, Find, Keeps;
    var p := KeptBy(c, ms);
    var sorted := Sort(KeysOf(ms));
    SortSorted(KeysOf(ms));
    if c.App? {
      FilterIn(p, sorted);
      FilterSorted(p, sorted);
      EnumOrderSorted(Filter(p, sorted));
    } else {
      EnumOrderSorted(sorted);
      FilterIn(p, EnumOrder(sorted));
      FilterSorted(p, EnumOrder(sorted));
    }
  }

  lemma {:induction false} MemberDocsAt(c: Copy, ms: seq<Member>, ks: seq<Text>)
    requires forall k | k in ks :: k in KeysOf(ms)
    ensures |MemberDocs(c, ms, ks)| == |ks|
    ensures forall i | 0 <= i < |ks| :: MemberDocs(c, ms, ks)[i] == DocMember(ks[i], DocOf(c, ms[Find(ms, ks[i])].value))
    decreases |ks|
  {
    hide DocOf, Find, KeysOf;
    if ks != [] {
      assert ks[0] in ks;
      assert ks == [ks[0]] + ks[1..];
      MemberDocsAt(c, ms, ks[1..]);
    }
  }

  /** The members of an object's document. */
  function ObjectDocs(c: Copy, ms: seq<Member>): seq<DocMember> { MemberDocs(c, ms, PrintOrder(c, ms)) }

  lemma HeadObject(c: Copy, v: Js)
    requires HeadOf(c, v).HObj?
    ensures DocOf(c, v) == DObj(ObjectDocs(c, HeadOf(c, v).members))
  {
    var ms := HeadOf(c, v).members;
    if ms == [] {
      PrintOrderSorted(c, ms);
    }
  }

  /** What `ObjectDocs` says of its keys and values, in one place. */
  lemma ObjectDocsAt(c: Copy, ms: seq<Member>)
    requires DistinctMembers(ms)
    ensures KeySorted(PrintOrder(c, ms))
    ensures forall k :: k in PrintOrder(c, ms) <==> k in KeysOf(ms) && Keeps(c, ms[Find(ms, k)])
    ensures |ObjectDocs(c, ms)| == |PrintOrder(c, ms)|
    ensures forall i | 0 <= i < |PrintOrder(c, ms)| ::
              PrintOrder(c, ms)[i] in KeysOf(ms) && ObjectDocs(c, ms)[i] == DocMember(PrintOrder(c, ms)[i], DocOf(c, ms[Find(ms, PrintOrder(c, ms)[i])].value))
  {
    hide DocOf, Find, KeysOf, Keeps, PrintOrder, KeyLess, MemberDocs;
    PrintOrderSorted(c, ms);
    MemberDocsAt(c, ms, PrintOrder(c, ms));
    forall i | 0 <= i < |PrintOrder(c, ms)| ensures PrintOrder(c, ms)[i] in KeysOf(ms) {
      assert PrintOrder(c, ms)[i] in PrintOrder(c, ms);
    }
  }

  ghost predicate AllValid(ms: seq<Member>) {
    DistinctMembers(ms) && forall i | 0 <= i < |ms| :: Valid(ms[i].value)
  }

  lemma {:induction false} DocWellFormed(c: Copy, v: Js)
    requires Valid(v)
    ensures WellFormed(DocOf(c, v))
    decreases v
  {
    hide PrintOrder, KeysOf, Find, BigText, MemberDocs, KeptBy;
    var h := HeadOf(c, v);
    if h.HArr? {
      forall i | 0 <= i < |h.items| ensures WellFormed(ItemDocs(c, h.items)[i]) {
        ItemDocsAt(c, h.items, i);
        DocWellFormed(c, h.items[i]);
      }
    } else if h.HObj? && h.members != [] {
      ObjectDocsAt(c, h.members);
      HeadObject(c, v);
      forall i | 0 <= i < |ObjectDocs(c, h.members)| ensures WellFormed(ObjectDocs(c, h.members)[i].value) {
        DocWellFormed(c, h.members[Find(h.members, PrintOrder(c, h.members)[i])].value);
      }
    }
  }

  lemma {:induction false} ItemDocsAt(c: Copy, items: seq<Js>, i: nat)
    requires i < |items|
    ensures ItemDocs(c, items)[i] == DocOf(c, items[i])
  {
    hide DocOf;
    if i > 0 { ItemDocsAt(c, items[1..], i - 1); }
  }

  // ---- the text says what the value is

  lemma NatSpelled(a: nat)
    ensures SpellsNat(DigitUnits(Digits(a)), a)
  {
    DigitsValue(a);
    assert UnitDigits(DigitUnits(Digits(a))) == Digits(a);
  }

  lemma SpelledNat(t: Text, a: nat)
    requires SpellsNat(t, a)
    ensures t == DigitUnits(Digits(a))
  {
    hide Digits, Value;
    DigitsOfValue(UnitDigits(t));
    assert DigitUnits(UnitDigits(t)) == t;
  }

  lemma BigSpelled(n: int)
    ensures SpellsInt(BigText(n), n)
  {
    hide SpellsNat;
    NatSpelled(if n < 0 then -n else n);
    if n < 0 { assert BigText(n)[1..] == DigitUnits(Digits(-n)); }
  }

  lemma SpelledBig(t: Text, n: int)
    requires SpellsInt(t, n)
    ensures t == BigText(n)
  {
    hide SpellsNat;
    if n < 0 {
      SpelledNat(t[1..], -n);
      assert t == [0x2D] + t[1..];
    } else {
      SpelledNat(t, n);
    }
  }

  /** A value's document says what the value is. */
  lemma {:induction false} DocMeans(c: Copy, v: Js)
    requires Valid(v)
    ensures Means(c, v, DocOf(c, v))
    decreases v
  {
    hide ItemDocs, MemberDocs, PrintOrder, ObjectDocs, BigText, SpellsInt, IsNumText, MembersMean;
    match v
    case Big(n) => BigSpelled(n);
    case Arr(items) =>
      HeadItems(c, v);
      forall i | 0 <= i < |items| ensures Means(c, items[i], ItemDocs(c, items)[i]) {
        ItemDocsAt(c, items, i);
        DocMeans(c, items[i]);
      }
    case Obj(ms) =>
      HeadObject(c, v);
      forall i | 0 <= i < |ms| ensures Means(c, ms[i].value, DocOf(c, ms[i].value)) { DocMeans(c, ms[i].value); }
      ObjectMeans(c, ms);
    case _ =>
  }

  lemma HeadItems(c: Copy, v: Js)
    requires v.Arr?
    ensures DocOf(c, v) == DArr(ItemDocs(c, v.items))
  {
  }

  lemma ObjectMeans(c: Copy, ms: seq<Member>)
    requires AllValid(ms) && forall i | 0 <= i < |ms| :: Means(c, ms[i].value, DocOf(c, ms[i].value))
    ensures MembersMean(c, ms, ObjectDocs(c, ms))
  {
    hide DocOf, Valid, Find, KeysOf, KeyLess, PrintOrder, MemberDocs, ObjectDocs, Means;
    var ks, ds := PrintOrder(c, ms), ObjectDocs(c, ms);
    ObjectDocsAt(c, ms);
    DistinctSorted(ks);
    forall i | 0 <= i < |ms| ensures ms[i].key in KeysOf(ms) && Find(ms, ms[i].key) == i {
      FindUnique(ms, i);
    }
    MembersGiven(c, ms, ks, ds);
  }

  lemma DistinctSorted(ks: seq<Text>)
    requires KeySorted(ks)
    ensures Distinct(ks)
  {
    hide KeyLess;
    forall j, k | 0 <= j < k < |ks| ensures ks[j] != ks[k] { KeyOrderTotal(ks[j], ks[k], []); }
  }

  /** Members given by the keys of the text, each with the value under it. */
  lemma MembersGiven(c: Copy, ms: seq<Member>, ks: seq<Text>, ds: seq<DocMember>)
    requires Distinct(ks) && |ds| == |ks|
    requires forall i | 0 <= i < |ms| :: ms[i].key in KeysOf(ms) && Find(ms, ms[i].key) == i
    requires forall k :: k in ks <==> k in KeysOf(ms) && Keeps(c, ms[Find(ms, k)])
    requires forall j | 0 <= j < |ks| :: ks[j] in KeysOf(ms) && ds[j].key == ks[j] && Means(c, ms[Find(ms, ks[j])].value, ds[j].value)
    ensures MembersMean(c, ms, ds)
  {
    hide Means, Find, KeysOf;
    forall j | 0 <= j < |ds|
      ensures exists i | 0 <= i < |ms| :: ms[i].key == ds[j].key && ms[i].value != Undefined && (c.App? ==> ms[i].key != PROTO)
    {
      assert ks[j] in ks;
      assert ms[Find(ms, ks[j])].key == ds[j].key;
    }
    forall i | 0 <= i < |ms| && ms[i].value != Undefined && (c.App? ==> ms[i].key != PROTO)
      ensures exists j | 0 <= j < |ds| :: ds[j].key == ms[i].key && Means(c, ms[i].value, ds[j].value)
    {
      var j :| 0 <= j < |ks| && ks[j] == ms[i].key;
      assert ds[j].key == ms[i].key;
    }
  }

  /** A document that is neither an array nor an object says what exactly one document's values are. */
  lemma SimpleMeans(c: Copy, v: Js, d: Doc)
    requires Means(c, v, d) && !d.DArr? && !d.DObj?
    ensures DocOf(c, v) == d
  {
    hide SpellsInt, BigText, ItemDocs, MemberDocs;
    if v.Big? { SpelledBig(d.s, v.n); }
  }

  /** The members of a document that says what an object is, key by key. */
  lemma ObjectMeant(c: Copy, ms: seq<Member>, ds: seq<DocMember>)
    requires AllValid(ms) && MembersMean(c, ms, ds)
    ensures forall k :: k in PrintOrder(c, ms) <==> exists j :: 0 <= j < |ds| && ds[j].key == k
    ensures forall j | 0 <= j < |ds| :: ds[j].key in KeysOf(ms) && Means(c, ms[Find(ms, ds[j].key)].value, ds[j].value)
  {
    hide PrintOrder, Find, KeysOf, KeyLess, Means, Valid, MembersMean;
    PrintOrderSorted(c, ms);
    forall j | 0 <= j < |ds|
      ensures ds[j].key in PrintOrder(c, ms)
      ensures ds[j].key in KeysOf(ms) && Means(c, ms[Find(ms, ds[j].key)].value, ds[j].value)
    {
      MemberMeant(c, ms, ds, j);
    }
    forall k | k in PrintOrder(c, ms) ensures exists j :: 0 <= j < |ds| && ds[j].key == k {
      var j := MemberFound(c, ms, ds, Find(ms, k));
    }
  }

  lemma MemberMeant(c: Copy, ms: seq<Member>, ds: seq<DocMember>, j: nat)
    requires DistinctMembers(ms) && MembersMean(c, ms, ds) && j < |ds|
    ensures ds[j].key in KeysOf(ms)
    ensures var m := ms[Find(ms, ds[j].key)]; Keeps(c, m) && Means(c, m.value, ds[j].value)
  {
    hide Find, KeysOf, Means;
    var key := ds[j].key;
    var i :| 0 <= i < |ms| && ms[i].key == key && ms[i].value != Undefined && (c.App? ==> ms[i].key != PROTO);
    FindUnique(ms, i);
    var k := MemberFound(c, ms, ds, i);
    assert k == j;
  }

  lemma MemberFound(c: Copy, ms: seq<Member>, ds: seq<DocMember>, i: nat) returns (j: nat)
    requires MembersMean(c, ms, ds) && i < |ms| && Keeps(c, ms[i])
    ensures j < |ds| && ds[j].key == ms[i].key && Means(c, ms[i].value, ds[j].value)
  {
    hide Means;
    j :| 0 <= j < |ds| && ds[j].key == ms[i].key && Means(c, ms[i].value, ds[j].value);
  }

  lemma NoneMean(c: Copy)
    ensures MembersMean(c, [], [])
  {
  }

  /** What is an object in the text: an object, or a date in the notice renderer's copy. */
  lemma DocObject(c: Copy, v: Js, d: Doc)
    requires Valid(v) && Means(c, v, d) && d.DObj?
    ensures var h := HeadOf(c, v); h.HObj? && AllValid(h.members) && MembersMean(c, h.members, d.members)
    ensures v.Obj? || HeadOf(c, v).members == []
  {
    hide MembersMean;
    if v.Date? { assert MembersMean(c, [], []) by { NoneMean(c); } }
  }

  /** Values that one document speaks of have one document. */
  lemma {:induction false} OneMeaning(c: Copy, v: Js, w: Js, d: Doc)
    requires Valid(v) && Valid(w) && Means(c, v, d) && Means(c, w, d)
    ensures DocOf(c, v) == DocOf(c, w)
    decreases v
  {
    hide ItemDocs, MemberDocs, PrintOrder, ObjectDocs, DocOf, SpellsInt, BigText, Find, KeysOf;
    if d.DArr? {
      HeadItems(c, v);
      HeadItems(c, w);
      forall i | 0 <= i < |d.items| ensures ItemDocs(c, v.items)[i] == ItemDocs(c, w.items)[i] {
        ItemDocsAt(c, v.items, i);
        ItemDocsAt(c, w.items, i);
        OneMeaning(c, v.items[i], w.items[i], d.items[i]);
      }
      assert ItemDocs(c, v.items) == ItemDocs(c, w.items);
    } else if d.DObj? {
      DocObject(c, v, d);
      DocObject(c, w, d);
      var ms, ns := HeadOf(c, v).members, HeadOf(c, w).members;
      ObjectMeant(c, ms, d.members);
      ObjectMeant(c, ns, d.members);
      HeadObject(c, v);
      HeadObject(c, w);
      forall j | 0 <= j < |d.members|
        ensures var k := d.members[j].key; DocOf(c, ms[Find(ms, k)].value) == DocOf(c, ns[Find(ns, k)].value)
      {
        var k := d.members[j].key;
        OneMeaning(c, ms[Find(ms, k)].value, ns[Find(ns, k)].value, d.members[j].value);
      }
      SameMembers(c, ms, ns);
    } else {
      SimpleMeans(c, v, d);
      SimpleMeans(c, w, d);
    }
  }

  /** Two objects with the same kept keys, and the same documents under them, have the same members in the text. */
  lemma SameMembers(c: Copy, ms: seq<Member>, ns: seq<Member>)
    requires AllValid(ms) && AllValid(ns)
    requires forall k :: k in PrintOrder(c, ms) <==> k in PrintOrder(c, ns)
    requires forall k | k in PrintOrder(c, ms) && k in KeysOf(ms) && k in KeysOf(ns) ::
               DocOf(c, ms[Find(ms, k)].value) == DocOf(c, ns[Find(ns, k)].value)
    ensures ObjectDocs(c, ms) == ObjectDocs(c, ns)
  {
    hide DocOf, Valid, Find, KeysOf, Keeps, KeyLess, PrintOrder, MemberDocs, ObjectDocs;
    var ks, ls := PrintOrder(c, ms), PrintOrder(c, ns);
    ObjectDocsAt(c, ms);
    ObjectDocsAt(c, ns);
    SortedUnique(ks, ls);
    forall n | 0 <= n < |ks| ensures ObjectDocs(c, ms)[n] == ObjectDocs(c, ns)[n] {
      assert ks[n] in ks && ks[n] in ls;
    }
    assert ObjectDocs(c, ms) == ObjectDocs(c, ns);
  }

  /** A reader of a canonical text gets, up to the text's end, a document that says what the value is. */
  lemma TextReads(c: Copy, v: Js)
    requires Valid(v) && (v == Undefined ==> !c.Notices?)
    ensures var r := ReadDoc(CanonicalText(c, v)); r.Got? && r.rest == [] && Means(c, v, r.value)
  {
    hide DocOf, Valid, Print, ReadDoc, Means;
    DocWellFormed(c, v);
    DocMeans(c, v);
    DocRoundTrip(DocOf(c, v), []);
    assert CanonicalText(c, v) + [] == CanonicalText(c, v);
  }

  /** Two values have one canonical text exactly when one document says what both are. */
  lemma TextExact(c: Copy, v: Js, w: Js)
    requires Valid(v) && Valid(w)
    requires c.Notices? ==> v != Undefined && w != Undefined
    ensures CanonicalText(c, v) == CanonicalText(c, w) <==> exists d :: Means(c, v, d) && Means(c, w, d)
  {
    hide DocOf, Valid, Print, Means;
    DocWellFormed(c, v);
    DocWellFormed(c, w);
    DocMeans(c, v);
    DocMeans(c, w);
    if CanonicalText(c, v) == CanonicalText(c, w) {
      PrintInjective(DocOf(c, v), DocOf(c, w));
    }
    if d :| Means(c, v, d) && Means(c, w, d) {
      OneMeaning(c, v, w, d);
    }
  }

  // ---- when two serialisers agree

  /** Nothing in `v` is treated differently by `c` and `d`: no date one of them empties, no kept member the other drops. */
  predicate Alike(c: Copy, d: Copy, v: Js) {
    match v
    case Date(_) => c.Notices? == d.Notices?
    case Arr(items) => forall i | 0 <= i < |items| :: Alike(c, d, items[i])
    case Obj(ms) =>
      forall i | 0 <= i < |ms| ::
        Keeps(c, ms[i]) == Keeps(d, ms[i]) && (Keeps(c, ms[i]) ==> Alike(c, d, ms[i].value))
    case _ => true
  }

  lemma {:induction false} DocsAgree(c: Copy, d: Copy, v: Js)
    requires Valid(v)
    ensures DocOf(c, v) == DocOf(d, v) <==> Alike(c, d, v)
    decreases v, 1
  {
    hide ItemDocs, ObjectDocs, BigText, IsNumText, MemberDocs, PrintOrder, KeptBy, KeysOf, Keeps;
    if v.Arr? {
      ItemsAgree(c, d, v.items);
    } else if v.Obj? {
      HeadObject(c, v);
      HeadObject(d, v);
      MembersAgree(c, d, v.members);
    }
  }

  lemma {:induction false} ItemsAgree(c: Copy, d: Copy, items: seq<Js>)
    requires forall i | 0 <= i < |items| :: Valid(items[i])
    ensures ItemDocs(c, items) == ItemDocs(d, items) <==> forall i | 0 <= i < |items| :: Alike(c, d, items[i])
    decreases items, 0
  {
    hide DocOf, Valid, Alike;
    if items != [] {
      DocsAgree(c, d, items[0]);
      ItemsAgree(c, d, items[1..]);
      var a, b := ItemDocs(c, items), ItemDocs(d, items);
      assert a == [DocOf(c, items[0])] + a[1..] && b == [DocOf(d, items[0])] + b[1..];
      if forall i | 0 <= i < |items| :: Alike(c, d, items[i]) {
        assert forall i | 0 <= i < |items[1..]| :: Alike(c, d, items[1..][i]);
      }
      if forall i | 0 <= i < |items[1..]| :: Alike(c, d, items[1..][i]) {
        forall i | 1 <= i < |items| ensures Alike(c, d, items[i]) {
          assert items[i] == items[1..][i - 1];
        }
      }
    }
  }

  lemma {:induction false} MembersAgree(c: Copy, d: Copy, ms: seq<Member>)
    requires AllValid(ms)
    ensures ObjectDocs(c, ms) == ObjectDocs(d, ms) <==>
            forall i | 0 <= i < |ms| ::
              Keeps(c, ms[i]) == Keeps(d, ms[i]) && (Keeps(c, ms[i]) ==> Alike(c, d, ms[i].value))
    decreases ms, 0
  {
    hide DocOf, Valid, Find, KeysOf, Keeps, KeyLess, PrintOrder, MemberDocs, ObjectDocs, Alike;
    var ks, ls := PrintOrder(c, ms), PrintOrder(d, ms);
    ObjectDocsAt(c, ms);
    ObjectDocsAt(d, ms);
    forall i | 0 <= i < |ms|
      ensures ms[i].key in ks <==> Keeps(c, ms[i])
      ensures ms[i].key in ls <==> Keeps(d, ms[i])
      ensures DocOf(c, ms[i].value) == DocOf(d, ms[i].value) <==> Alike(c, d, ms[i].value)
    {
      FindUnique(ms, i);
      DocsAgree(c, d, ms[i].value);
    }
    if ObjectDocs(c, ms) == ObjectDocs(d, ms) {
      forall n | 0 <= n < |ks| ensures ks[n] == ls[n] {
        assert ObjectDocs(c, ms)[n].key == ks[n];
      }
      assert ks == ls;
      forall i | 0 <= i < |ms| && Keeps(c, ms[i]) ensures Alike(c, d, ms[i].value) {
        FindUnique(ms, i);
        var n :| 0 <= n < |ks| && ks[n] == ms[i].key;
        assert ObjectDocs(c, ms)[n] == ObjectDocs(d, ms)[n];
      }
    }
    if forall i | 0 <= i < |ms| :: Keeps(c, ms[i]) == Keeps(d, ms[i]) && (Keeps(c, ms[i]) ==> Alike(c, d, ms[i].value)) {
      forall k ensures k in ks <==> k in ls {
        if k in KeysOf(ms) { assert ms[Find(ms, k)].key == k; }
      }
      SortedUnique(ks, ls);
      forall n | 0 <= n < |ks| ensures ObjectDocs(c, ms)[n] == ObjectDocs(d, ms)[n] {
        var i := Find(ms, ks[n]);
        assert ks[n] in ks && Keeps(c, ms[i]);
      }
      assert ObjectDocs(c, ms) == ObjectDocs(d, ms);
    }
  }

  /** Two serialisers print one text for a value exactly when nothing in it is treated differently. */
  lemma TextsAgree(c: Copy, d: Copy, v: Js)
    requires Valid(v)
    requires v == Undefined ==> !c.Notices? && !d.Notices?
    ensures CanonicalText(c, v) == CanonicalText(d, v) <==> Alike(c, d, v)
  {
    hide DocOf, Valid, Print, Alike;
    DocsAgree(c, d, v);
    DocWellFormed(c, v);
    DocWellFormed(d, v);
    if CanonicalText(c, v) == CanonicalText(d, v) {
      PrintInjective(DocOf(c, v), DocOf(d, v));
    }
  }

  /** No date and no defined member called `__proto__`, at any depth. */
  predicate Ordinary(v: Js) {
    match v
    case Date(_) => false
    case Arr(items) => forall i | 0 <= i < |items| :: Ordinary(items[i])
    case Obj(ms) => forall i | 0 <= i < |ms| && ms[i].value != Undefined :: ms[i].key != PROTO && Ordinary(ms[i].value)
    case _ => true
  }

  lemma {:induction false} OrdinaryAlike(v: Js)
    ensures Ordinary(v) <==> Alike(App, Notices, v)
  {
    match v
    case Arr(items) => forall i | 0 <= i < |items| { OrdinaryAlike(items[i]); }
    case Obj(ms) => forall i | 0 <= i < |ms| { OrdinaryAlike(ms[i].value); }
    case _ =>
  }

  /** The two copies agree on a defined value exactly when it holds no date and no `__proto__` member. */
  lemma CopiesAgree(v: Js)
    requires Valid(v) && v != Undefined
    ensures CanonicalText(App, v) == CanonicalText(Notices, v) <==> Ordinary(v)
  {
    hide CanonicalText, Valid, Alike, Ordinary;
    TextsAgree(App, Notices, v);
    OrdinaryAlike(v);
  }

  lemma NoMembers(c: Copy, d: Doc)
    requires d.DObj? && d.members != []
    ensures !Means(c, Obj([]), d)
  {
    var k := d.members[0].key;
  }

  /** Two different objects that the command bus's copy hashes alike, though the declared serialiser tells them apart. */
  lemma ProtoMemberLost()
    ensures var v, w := Obj([Member(PROTO, Bool(true))]), Obj([]);
            && CanonicalText(App, v) == CanonicalText(App, w)
            && CanonicalText(Declared, v) != CanonicalText(Declared, w)
  {
    var v, w := Obj([Member(PROTO, Bool(true))]), Obj([]);
    assert Valid(v) && Valid(w);
    TextExact(App, v, w);
    TextExact(Declared, v, w);
    assert Means(App, v, DObj([])) && Means(App, w, DObj([]));
    forall d | Means(Declared, w, d) ensures !Means(Declared, v, d) {
      if d.members != [] { NoMembers(Declared, d); }
      assert v.members[0].value != Undefined;
    }
  }

  // ---- the command bus's copy as the source runs it

  /** The assignment `out[k] = d` on a plain object. */
  function Assign(out: seq<DocMember>, k: Text, d: Doc): seq<DocMember> {
    if k == PROTO then out else PutMember(out, DocMember(k, d))
  }

  function PutMember(out: seq<DocMember>, m: DocMember): seq<DocMember> {
    if out == [] || (IsIndex(m.key) && (!IsIndex(out[0].key) || ShortLess(m.key, out[0].key))) then [m] + out
    else [out[0]] + PutMember(out[1..], m)
  }

  lemma {:induction false} PutMemberDocs(c: Copy, ms: seq<Member>, ks: seq<Text>, k: Text)
    requires k in KeysOf(ms) && forall x | x in ks :: x in KeysOf(ms)
    ensures MemberDocs(c, ms, PutKey(ks, k)) ==
            PutMember(MemberDocs(c, ms, ks), DocMember(k, DocOf(c, ms[Find(ms, k)].value)))
    decreases |ks|
  {
    hide DocOf, Find, KeysOf, IsIndex, ShortLess;
    if ks != [] {
      assert ks[0] in ks && ks == [ks[0]] + ks[1..];
      PutMemberDocs(c, ms, ks[1..], k);
      var docs := MemberDocs(c, ms, ks);
      assert docs[1..] == MemberDocs(c, ms, ks[1..]);
      assert ([ks[0]] + PutKey(ks[1..], k))[1..] == PutKey(ks[1..], k);
      assert ([k] + ks)[1..] == ks;
    } else {
      assert ([k] + ks)[1..] == [];
    }
  }

  /** One turn of the key loop. */
  lemma AssignStep(ms: seq<Member>, done: seq<Text>, k: Text)
    requires k in KeysOf(ms) && forall x | x in done :: x in KeysOf(ms)
    ensures var p := KeptBy(App, ms);
            var m := ms[Find(ms, k)];
            var out := MemberDocs(App, ms, EnumOrder(Filter(p, done)));
            MemberDocs(App, ms, EnumOrder(Filter(p, done + [k]))) ==
              if m.value != Undefined then Assign(out, k, DocOf(App, m.value)) else out
  {
    hide DocOf, PutKey, KeysOf, MemberDocs, Find, EnumOrder, Filter, PutMember;
    var p := KeptBy(App, ms);
    var kept := Filter(p, done);
    FilterSnoc(p, done, k);
    if p(k) {
      FilterIn(p, done);
      EnumOrderIn(kept);
      EnumSnoc(kept, k);
      PutMemberDocs(App, ms, EnumOrder(kept), k);
    } else {
      assert kept + [] == kept;
    }
  }

  lemma EnumSnoc(ks: seq<Text>, k: Text)
    ensures EnumOrder(ks + [k]) == PutKey(EnumOrder(ks), k)
  {
    hide PutKey;
    assert (ks + [k])[..|ks|] == ks;
  }

  lemma {:induction false} EnumOrderIn(ks: seq<Text>)
    ensures forall x :: x in EnumOrder(ks) <==> x in ks
  {
    if ks != [] {
      var init, last := ks[..|ks| - 1], ks[|ks| - 1];
      EnumOrderIn(init);
      PutKeyIn(EnumOrder(init), last);
      assert ks == init + [last];
    }
  }

  lemma {:induction false} PutKeyIn(ks: seq<Text>, k: Text)
    ensures forall x :: x in PutKey(ks, k) <==> x == k || x in ks
  {
    hide IsIndex, ShortLess;
    if ks != [] {
      PutKeyIn(ks[1..], k);
      assert ks == [ks[0]] + ks[1..];
    }
  }

  /** `canon`: recursion over the value, with a loop over the sorted keys that fills a fresh object. */
  method Canon(v: Js) returns (d: Doc)
    requires Valid(v)
    ensures d == DocOf(App, v) && Means(App, v, d)
    decreases v
  {
    hide Means;
    DocMeans(App, v);
    match v
    case Arr(items) =>
      var out: seq<Doc> := [];
      for i := 0 to |items|
        invariant |out| == i && forall j | 0 <= j < i :: out[j] == DocOf(App, items[j])
      {
        var item := Canon(items[i]);
        out := out + [item];
      }
      forall j | 0 <= j < |items| ensures out[j] == ItemDocs(App, items)[j] { ItemDocsAt(App, items, j); }
      assert out == ItemDocs(App, items);
      d := DArr(out);
    case Obj(ms) =>
      var ks := Sort(KeysOf(ms));
      SortSorted(KeysOf(ms));
      var members := CanonMembers(v, ks);
      HeadObject(App, v);
      d := DObj(members);
    case Undefined => d := DNull;
    case Null => d := DNull;
    case NotFinite => d := DNull;
    case Bool(b) => d := DBool(b);
    case Num(t) => d := DNum(t);
    case Big(n) => d := DStr(BigText(n));
    case Str(s) => d := DStr(s);
    case Date(iso) => d := DStr(iso);
  }

  method CanonMembers(v: Js, ks: seq<Text>) returns (out: seq<DocMember>)
    requires v.Obj? && Valid(v) && forall k | k in ks :: k in KeysOf(v.members)
    ensures out == MemberDocs(App, v.members, EnumOrder(Filter(KeptBy(App, v.members), ks)))
    decreases v, 0
  {
    hide DocOf, PutKey, KeysOf, MemberDocs, Find, KeptBy, Filter, EnumOrder;
    var ms := v.members;
    out := [];
    assert ks[..0] == [];
    EmptyFold(ms);
    for i := 0 to |ks|
      invariant out == MemberDocs(App, ms, EnumOrder(Filter(KeptBy(App, ms), ks[..i])))
    {
      assert ks[i] in ks;
      var value := ms[Find(ms, ks[i])].value;
      AssignStep(ms, ks[..i], ks[i]);
      assert ks[..i + 1] == ks[..i] + [ks[i]];
      if value != Undefined {
        var d := Canon(value);
        out := Assign(out, ks[i], d);
      }
    }
    assert ks[..|ks|] == ks;
  }

  lemma EmptyFold(ms: seq<Member>)
    ensures MemberDocs(App, ms, EnumOrder(Filter(KeptBy(App, ms), []))) == []
  {
  }
}
