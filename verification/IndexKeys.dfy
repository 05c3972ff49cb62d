/**
 * What the key order compares: a text before another at the first unit in which they differ, and the numerals
 * of array indices (section 6.1.7 of ECMA-262) by their numbers.
 */
module IndexKeys {
  import opened Decimal
  import opened JsonText
  import opened KeyOrder
  import opened CanonicalJson

  /** The texts agree up to `i`, and there the first ends or has the smaller unit. */
  ghost predicate DiffersAt(a: Text, b: Text, i: nat) {
    i < |b| && i <= |a| && a[..i] == b[..i] && (i == |a| || a[i] < b[i])
  }

  lemma DiffersLater(a: Text, b: Text, i: nat)
    requires a != [] && b != []
    ensures DiffersAt(a, b, i + 1) <==> a[0] == b[0] && DiffersAt(a[1..], b[1..], i)
  {
    if i < |b| - 1 && i <= |a| - 1 {
      assert a[..i + 1] == [a[0]] + a[1..][..i];
      assert b[..i + 1] == [b[0]] + b[1..][..i];
      if a[..i + 1] == b[..i + 1] {
        assert a[..i + 1][0] == b[..i + 1][0] && a[..i + 1][1..] == b[..i + 1][1..];
        assert a[1..][..i] == b[1..][..i];
      }
    }
  }

  /** Of two texts the first sorts before the second exactly when it is its proper prefix, or is smaller where they first differ. */
  lemma {:induction false} LexExact(a: Text, b: Text)
    ensures LexLess(a, b) <==> exists i :: DiffersAt(a, b, i)
  {
    hide DiffersAt;
    if a == [] || b == [] {
      DiffersAtEnd(a, b);
    } else {
      LexExact(a[1..], b[1..]);
      DiffersHere(a, b);
      if i: nat :| DiffersAt(a, b, i) && i > 0 { DiffersLater(a, b, i - 1); }
      if i: nat :| DiffersAt(a[1..], b[1..], i) { DiffersLater(a, b, i); }
    }
  }

  lemma DiffersAtEnd(a: Text, b: Text)
    requires a == [] || b == []
    ensures (exists i :: DiffersAt(a, b, i)) <==> b != []
  {
    if b != [] { assert DiffersAt(a, b, 0); }
  }

  lemma DiffersHere(a: Text, b: Text)
    requires a != [] && b != []
    ensures DiffersAt(a, b, 0) <==> a[0] < b[0]
  {
  }

  function Pow10(k: nat): (p: nat)
    ensures p > 0
  {
    if k == 0 then 1 else 10 * Pow10(k - 1)
  }

  lemma {:induction false} ValueBound(ds: seq<Digit>)
    ensures Value(ds) < Pow10(|ds|)
    ensures ds != [] && ds[0] != 0 ==> Value(ds) >= Pow10(|ds| - 1)
  {
    if ds != [] {
      var init := ds[..|ds| - 1];
      ValueBound(init);
      if init != [] { assert init[0] == ds[0]; }
    }
  }

  lemma {:induction false} ValueCons(d: Digit, rest: seq<Digit>)
    ensures Value([d] + rest) == d * Pow10(|rest|) + Value(rest)
  {
    if rest == [] {
      assert [d] + rest == [d] && [d][..0] == [];
    } else {
      var init, last := rest[..|rest| - 1], rest[|rest| - 1];
      ValueCons(d, init);
      assert ([d] + rest)[..|rest|] == [d] + init;
      assert 10 * (d * Pow10(|init|)) == d * Pow10(|rest|);
    }
  }

  lemma Leading(d: nat, e: nat, p: nat, x: nat, y: nat)
    requires x < p && y < p
    ensures d * p + x < e * p + y <==> d < e || (d == e && x < y)
  {
    if d < e { AtLeastOne(d, e, p); }
    if d > e { AtLeastOne(e, d, p); }
  }

  lemma {:induction false} AtLeastOne(d: nat, e: nat, p: nat)
    requires d < e
    ensures e * p >= d * p + p
  {
    assert e * p == (e - 1) * p + p;
    if d < e - 1 { AtLeastOne(d, e - 1, p); }
  }

  ghost predicate AllDigits(t: Text) { forall i | 0 <= i < |t| :: 0x30 <= t[i] <= 0x39 }

  /** Numerals of one length sort as their numbers. */
  lemma {:induction false} SameLength(a: Text, b: Text)
    requires AllDigits(a) && AllDigits(b) && |a| == |b|
    ensures LexLess(a, b) <==> Value(UnitDigits(a)) < Value(UnitDigits(b))
  {
    hide Value;
    if a != [] {
      var x, y := a[1..], b[1..];
      SameLength(x, y);
      assert UnitDigits(a) == [a[0] - 0x30] + UnitDigits(x) && UnitDigits(b) == [b[0] - 0x30] + UnitDigits(y);
      ValueCons(a[0] - 0x30, UnitDigits(x));
      ValueCons(b[0] - 0x30, UnitDigits(y));
      ValueBound(UnitDigits(x));
      ValueBound(UnitDigits(y));
      Leading(a[0] - 0x30, b[0] - 0x30, Pow10(|x|), Value(UnitDigits(x)), Value(UnitDigits(y)));
    }
  }

  lemma {:induction false} PowGrows(j: nat, k: nat)
    requires j <= k
    ensures Pow10(j) <= Pow10(k)
  {
    if j < k { PowGrows(j, k - 1); }
  }

  lemma ShorterIsLess(a: Text, b: Text, m: nat, n: nat)
    requires SpellsNat(a, m) && SpellsNat(b, n) && |a| < |b|
    ensures m < n
  {
    ValueBound(UnitDigits(a));
    ValueBound(UnitDigits(b));
    PowGrows(|a|, |b| - 1);
  }

  /** Numerals without leading zeros are ordered as their numbers: shorter ones first, then by their digits. */
  lemma NumeralOrder(a: Text, b: Text, m: nat, n: nat)
    requires SpellsNat(a, m) && SpellsNat(b, n)
    ensures ShortLess(a, b) <==> m < n
  {
    hide LexLess, Value;
    if |a| < |b| {
      ShorterIsLess(a, b, m, n);
    } else if |b| < |a| {
      ShorterIsLess(b, a, n, m);
    } else {
      SameLength(a, b);
    }
  }

  lemma LastIndexDigits()
    ensures AllDigits(FIRST_NON_INDEX) && UnitDigits(FIRST_NON_INDEX) == [4, 2, 9, 4, 9, 6, 7, 2, 9, 5]
  {
    var t := FIRST_NON_INDEX;
    assert |t| == 10;
    assert t[0] == 0x34 && t[1] == 0x32 && t[2] == 0x39 && t[3] == 0x34 && t[4] == 0x39;
    assert t[5] == 0x36 && t[6] == 0x37 && t[7] == 0x32 && t[8] == 0x39 && t[9] == 0x35;
  }

  lemma LastIndexSpelled()
    ensures SpellsNat(FIRST_NON_INDEX, 4_294_967_295)
  {
    var ds: seq<Digit> := [4, 2, 9, 4, 9, 6, 7, 2, 9];
    LastIndexDigits();
    assert Value([4, 2, 9, 4, 9]) == 42949 by { ValueOfFive(4, 2, 9, 4, 9); }
    ValueSnoc([4, 2, 9, 4, 9], 6);
    ValueSnoc([4, 2, 9, 4, 9, 6], 7);
    ValueSnoc([4, 2, 9, 4, 9, 6, 7], 2);
    ValueSnoc([4, 2, 9, 4, 9, 6, 7, 2], 9);
    assert [4, 2, 9, 4, 9] + [6] == [4, 2, 9, 4, 9, 6] && [4, 2, 9, 4, 9, 6] + [7] == [4, 2, 9, 4, 9, 6, 7];
    assert [4, 2, 9, 4, 9, 6, 7] + [2] == [4, 2, 9, 4, 9, 6, 7, 2] && [4, 2, 9, 4, 9, 6, 7, 2] + [9] == ds;
    ValueSnoc(ds, 5);
    assert ds + [5] == [4, 2, 9, 4, 9, 6, 7, 2, 9, 5];
  }

  lemma ValueOfFive(a: Digit, b: Digit, c: Digit, d: Digit, e: Digit)
    ensures Value([a, b, c, d, e]) == 10_000 * a + 1_000 * b + 100 * c + 10 * d + e
  {
    ValueSnoc([], a);
    ValueSnoc([a], b);
    ValueSnoc([a, b], c);
    ValueSnoc([a, b, c], d);
    ValueSnoc([a, b, c, d], e);
    assert [] + [a] == [a] && [a] + [b] == [a, b] && [a, b] + [c] == [a, b, c];
    assert [a, b, c] + [d] == [a, b, c, d] && [a, b, c, d] + [e] == [a, b, c, d, e];
  }

  /** A key is an array index exactly when it is the decimal text of a number below 4294967295. */
  lemma IndexExact(k: Text)
    ensures IsIndex(k) <==> exists n: nat | n < 4_294_967_295 :: SpellsNat(k, n)
  {
    hide ShortLess, Value;
    LastIndexSpelled();
    if IsIndex(k) {
      var n := Value(UnitDigits(k));
      assert SpellsNat(k, n);
      NumeralOrder(k, FIRST_NON_INDEX, n, 4_294_967_295);
    }
    if n: nat :| n < 4_294_967_295 && SpellsNat(k, n) {
      NumeralOrder(k, FIRST_NON_INDEX, n, 4_294_967_295);
    }
  }

  /** Keys enumerate with the indices first, by their numbers, and the others after them, sorted. */
  lemma KeysByNumber(a: Text, b: Text, m: nat, n: nat)
    requires m < 4_294_967_295 && n < 4_294_967_295 && SpellsNat(a, m)
    ensures SpellsNat(b, n) ==> (KeyLess(a, b) <==> m < n)
    ensures !IsIndex(b) ==> KeyLess(a, b) && !KeyLess(b, a)
  {
    hide IsIndex, ShortLess, SpellsNat;
    IndexExact(a);
    IndexExact(b);
    if SpellsNat(b, n) { NumeralOrder(a, b, m, n); }
  }
}
