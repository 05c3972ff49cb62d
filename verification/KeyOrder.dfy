/**
 * The order in which an object's members come out: the canonical serialisers insert keys sorted by code
 * unit, and a JavaScript object then enumerates its array-index keys first, in numeric order, and the
 * others in insertion order.  The result depends on the set of keys only.
 */
module KeyOrder {
  import opened JsonText

  /** The default order of `sort()` on strings. */
  predicate LexLess(a: Text, b: Text) {
    b != [] && (a == [] || a[0] < b[0] || (a[0] == b[0] && LexLess(a[1..], b[1..])))
  }

  /** "4294967295", the first numeral that is not an array index. */
  const FIRST_NON_INDEX: Text := [0x34, 0x32, 0x39, 0x34, 0x39, 0x36, 0x37, 0x32, 0x39, 0x35]

  /** Shorter numerals are smaller numbers; among numerals of one length the order is that of their digits. */
  predicate ShortLess(a: Text, b: Text) {
    |a| < |b| || (|a| == |b| && LexLess(a, b))
  }

  /** `k` is the numeral of an array index. */
  predicate IsIndex(k: Text) {
    && k != []
    && (forall i | 0 <= i < |k| :: 0x30 <= k[i] <= 0x39)
    && (k[0] == 0x30 ==> |k| == 1)
    && ShortLess(k, FIRST_NON_INDEX)
  }

  /** The enumeration order of keys that were inserted sorted. */
  predicate KeyLess(a: Text, b: Text) {
    if IsIndex(a) then !IsIndex(b) || ShortLess(a, b) else !IsIndex(b) && LexLess(a, b)
  }

  lemma {:induction false} LexOrder(a: Text, b: Text, c: Text)
    ensures !LexLess(a, a)
    ensures LexLess(a, b) ==> !LexLess(b, a)
    ensures a == b || LexLess(a, b) || LexLess(b, a)
    ensures LexLess(a, b) && LexLess(b, c) ==> LexLess(a, c)
  {
    if a != [] && b != [] {
      var c' := if c == [] then [] else c[1..];
      LexOrder(a[1..], b[1..], c');
      if a[1..] == b[1..] && a[0] == b[0] {
        assert a == [a[0]] + a[1..] && b == [b[0]] + b[1..];
      }
    } else if a != [] {
      LexOrder(a[1..], [], []);
    }
  }

  lemma KeyOrderTotal(a: Text, b: Text, c: Text)
    ensures !KeyLess(a, a)
    ensures KeyLess(a, b) ==> !KeyLess(b, a)
    ensures a == b || KeyLess(a, b) || KeyLess(b, a)
    ensures KeyLess(a, b) && KeyLess(b, c) ==> KeyLess(a, c)
  {
    hide LexLess, IsIndex;
    LexOrder(a, b, c);
  }

  ghost predicate LexSorted(ks: seq<Text>) {
    forall i, j | 0 <= i < j < |ks| :: LexLess(ks[i], ks[j])
  }

  ghost predicate KeySorted(ks: seq<Text>) {
    forall i, j | 0 <= i < j < |ks| :: KeyLess(ks[i], ks[j])
  }

  ghost predicate Distinct(ks: seq<Text>) {
    forall i, j | 0 <= i < j < |ks| :: ks[i] != ks[j]
  }

  // ---- keys().sort()

  function Insert(k: Text, ks: seq<Text>): seq<Text> {
    if ks == [] || LexLess(k, ks[0]) then [k] + ks else [ks[0]] + Insert(k, ks[1..])
  }

  function Sort(ks: seq<Text>): seq<Text> {
    if ks == [] then [] else Insert(ks[0], Sort(ks[1..]))
  }

  lemma {:induction false} InsertSorted(k: Text, ks: seq<Text>)
    requires LexSorted(ks) && k !in ks
    ensures LexSorted(Insert(k, ks))
    ensures forall x :: x in Insert(k, ks) <==> x == k || x in ks
  {
    hide LexLess;
    if ks != [] && !LexLess(k, ks[0]) {
      InsertSorted(k, ks[1..]);
      LexOrder(k, ks[0], []);
      var rest := Insert(k, ks[1..]);
      forall x | x in rest ensures LexLess(ks[0], x) {
        if x != k { assert x in ks[1..]; }
      }
      assert ks == [ks[0]] + ks[1..];
    } else {
      forall j | 0 <= j < |ks| ensures LexLess(k, ks[j]) {
        if j > 0 { LexOrder(k, ks[0], ks[j]); }
      }
    }
  }

  /** Sorting distinct keys puts the same keys in strictly increasing order. */
  lemma {:induction false} SortSorted(ks: seq<Text>)
    requires Distinct(ks)
    ensures LexSorted(Sort(ks))
    ensures forall x :: x in Sort(ks) <==> x in ks
  {
    hide Insert, LexLess;
    if ks != [] {
      assert ks[0] !in ks[1..];
      SortSorted(ks[1..]);
      InsertSorted(ks[0], Sort(ks[1..]));
      assert ks == [ks[0]] + ks[1..];
    }
  }

  // ---- inserting keys into an object

  /** A new key joins the enumeration: an index key among the index keys, any other key at the end. */
  function PutKey(ks: seq<Text>, k: Text): seq<Text> {
    if ks == [] || (IsIndex(k) && (!IsIndex(ks[0]) || ShortLess(k, ks[0]))) then [k] + ks
    else [ks[0]] + PutKey(ks[1..], k)
  }

  /** The enumeration order of an object whose keys were inserted in the order `ks`. */
  function EnumOrder(ks: seq<Text>): seq<Text> {
    if ks == [] then [] else PutKey(EnumOrder(ks[..|ks| - 1]), ks[|ks| - 1])
  }

  lemma {:induction false} PutKeySorted(ks: seq<Text>, k: Text)
    requires KeySorted(ks)
    requires k !in ks
    requires !IsIndex(k) ==> forall x | x in ks && !IsIndex(x) :: LexLess(x, k)
    ensures KeySorted(PutKey(ks, k))
    ensures forall x :: x in PutKey(ks, k) <==> x == k || x in ks
  {
    hide LexLess, IsIndex, ShortLess;
    if ks != [] && !(IsIndex(k) && (!IsIndex(ks[0]) || ShortLess(k, ks[0]))) {
      assert ks == [ks[0]] + ks[1..];
      assert ks[0] in ks;
      PutKeySorted(ks[1..], k);
      KeyOrderTotal(k, ks[0], []);
      assert KeyLess(ks[0], k);
      var rest := PutKey(ks[1..], k);
      forall x | x in rest ensures KeyLess(ks[0], x) {
        if x != k { assert x in ks[1..]; }
      }
    } else {
      forall j | 0 <= j < |ks| ensures KeyLess(k, ks[j]) {
        if j > 0 { KeyOrderTotal(k, ks[0], ks[j]); }
      }
    }
  }

  /** Keys inserted in sorted order enumerate in key order. */
  lemma {:induction false} EnumOrderSorted(ks: seq<Text>)
    requires LexSorted(ks)
    ensures KeySorted(EnumOrder(ks))
    ensures forall x :: x in EnumOrder(ks) <==> x in ks
  {
    hide LexLess, IsIndex, PutKey, KeyLess;
    if ks != [] {
      var init, last := ks[..|ks| - 1], ks[|ks| - 1];
      EnumOrderSorted(init);
      forall x | x in init ensures LexLess(x, last) && x != last {
        LexOrder(last, x, []);
      }
      PutKeySorted(EnumOrder(init), last);
      assert ks == init + [last];
    }
  }

  /** Two key-sorted sequences with the same keys are one. */
  lemma {:induction false} SortedUnique(a: seq<Text>, b: seq<Text>)
    requires KeySorted(a) && KeySorted(b)
    requires forall x :: x in a <==> x in b
    ensures a == b
  {
    hide KeyLess;
    assert b == [] || b[0] in b;
    if a != [] {
      assert a[0] in b;
      assert b != [] && b[0] in a;
      if a[0] != b[0] {
        KeyOrderTotal(a[0], b[0], []);
        assert false;
      }
      forall x ensures x in a[1..] <==> x in b[1..] {
        KeyOrderTotal(a[0], x, []);
        if x in a[1..] { assert x in b && x != a[0]; }
        if x in b[1..] { assert x in a && x != b[0]; }
      }
      SortedUnique(a[1..], b[1..]);
      assert a == [a[0]] + a[1..] && b == [b[0]] + b[1..];
    }
  }

  // ---- filters

  function Filter(p: Text -> bool, ks: seq<Text>): seq<Text> {
    if ks == [] then [] else (if p(ks[0]) then [ks[0]] else []) + Filter(p, ks[1..])
  }

  lemma {:induction false} FilterIn(p: Text -> bool, ks: seq<Text>)
    ensures forall x :: x in Filter(p, ks) <==> x in ks && p(x)
  {
    if ks != [] {
      FilterIn(p, ks[1..]);
      assert ks == [ks[0]] + ks[1..];
    }
  }

  lemma {:induction false} FilterSorted(p: Text -> bool, ks: seq<Text>)
    ensures LexSorted(ks) ==> LexSorted(Filter(p, ks))
    ensures KeySorted(ks) ==> KeySorted(Filter(p, ks))
  {
    hide LexLess, KeyLess;
    if ks != [] {
      FilterSorted(p, ks[1..]);
      FilterIn(p, ks[1..]);
      forall x | x in Filter(p, ks[1..])
        ensures LexSorted(ks) ==> LexLess(ks[0], x)
        ensures KeySorted(ks) ==> KeyLess(ks[0], x)
      {
        var j :| 0 <= j < |ks[1..]| && ks[1..][j] == x;
        assert ks[j + 1] == x;
      }
    }
  }

  lemma FilterSnoc(p: Text -> bool, ks: seq<Text>, k: Text)
    ensures Filter(p, ks + [k]) == Filter(p, ks) + (if p(k) then [k] else [])
  {
    if ks == [] {
      assert [k][1..] == [];
    } else {
      FilterSnoc(p, ks[1..], k);
      assert (ks + [k])[1..] == ks[1..] + [k];
    }
  }
}
