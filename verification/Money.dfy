/** The money printer of the notice templates (src/notices/render.ts:39-45): cents in, dollars with grouped digits out. */
module Money {
  import opened Decimal

  function DigitChar(d: Digit): char { ('0' as int + d) as char }

  predicate IsDigit(c: char) { '0' <= c <= '9' }

  /** The decimal text of a natural number. */
  function Numeral(n: nat): string { Chars(Digits(n)) }

  function Chars(ds: seq<Digit>): (s: string)
    ensures |s| == |ds|
    ensures forall i | 0 <= i < |s| :: s[i] == DigitChar(ds[i])
  {
    if ds == [] then "" else [DigitChar(ds[0])] + Chars(ds[1..])
  }

  /** Inserts a comma after every digit that a positive multiple of three digits follow. */
  function Grouped(s: string): string {
    if s == "" then ""
    else [s[0]] + (if |s| > 1 && (|s| - 1) % 3 == 0 then "," else "") + Grouped(s[1..])
  }

  /** The two digits of the cents. */
  function Padded(n: nat): string {
    var s := Numeral(n);
    if |s| < 2 then "0" + s else s
  }

  function Money(c: int): string {
    var a := if c < 0 then -c else c;
    (if c < 0 then "-" else "") + "$" + Grouped(Numeral(a / 100)) + "." + Padded(a % 100)
  }

  // Reading an amount back: the leading sign, and the number its digits spell.

  function DigitsIn(s: string): (ds: seq<Digit>) {
    if s == "" then []
    else (if IsDigit(s[0]) then [s[0] as int - '0' as int] else []) + DigitsIn(s[1..])
  }

  function ReadCents(s: string): int {
    (if s != "" && s[0] == '-' then -1 else 1) * Value(DigitsIn(s))
  }

  lemma {:induction false} DigitsInConcat(a: string, b: string)
    ensures DigitsIn(a + b) == DigitsIn(a) + DigitsIn(b)
  {
    if a == "" {
      assert a + b == b;
    } else {
      DigitsInConcat(a[1..], b);
      assert (a + b)[1..] == a[1..] + b;
    }
  }

  lemma {:induction false} DigitsInChars(ds: seq<Digit>)
    ensures DigitsIn(Chars(ds)) == ds
  {
    if ds != [] {
      DigitsInChars(ds[1..]);
      assert Chars(ds)[1..] == Chars(ds[1..]);
    }
  }

  lemma {:induction false} DigitsInGrouped(s: string)
    ensures DigitsIn(Grouped(s)) == DigitsIn(s)
  {
    if s != "" {
      var sep := if |s| > 1 && (|s| - 1) % 3 == 0 then "," else "";
      DigitsInGrouped(s[1..]);
      DigitsInConcat([s[0]] + sep, Grouped(s[1..]));
      DigitsInConcat([s[0]], sep);
      DigitsInConcat([s[0]], s[1..]);
      assert s == [s[0]] + s[1..];
      assert DigitsIn(",") == [] by { assert ","[1..] == ""; }
      assert DigitsIn("") == [];
    }
  }

  /** Two digits of cents. */
  lemma PaddedDigits(n: nat)
    requires n < 100
    ensures DigitsIn(Padded(n)) == [n / 10, n % 10] && |Padded(n)| == 2
  {
    DigitsInChars(Digits(n));
    if n < 10 {
      DigitsInConcat("0", Numeral(n));
    } else {
      assert Digits(n / 10) == [n / 10];
    }
  }

  lemma ValueTwoMore(ds: seq<Digit>, a: Digit, b: Digit)
    ensures Value(ds + [a, b]) == 100 * Value(ds) + 10 * a + b
  {
    assert ds + [a, b] == ds + [a] + [b];
    ValueSnoc(ds + [a], b);
    ValueSnoc(ds, a);
  }

  lemma NoDigits(s: string)
    requires forall i | 0 <= i < |s| :: !IsDigit(s[i])
    ensures DigitsIn(s) == []
  {
  }

  /** The digits of the parts, one after the other. */
  lemma DigitsInParts(sign: string, whole: string, cents: string)
    requires DigitsIn(sign) == []
    ensures DigitsIn(sign + "$" + whole + "." + cents) == DigitsIn(whole) + DigitsIn(cents)
  {
    NoDigits("$");
    NoDigits(".");
    hide *;
    DigitsInConcat(sign, "$");
    assert DigitsIn(sign + "$") == [];
    DigitsInConcat(sign + "$", whole);
    assert DigitsIn(sign + "$" + whole) == DigitsIn(whole);
    DigitsInConcat(sign + "$" + whole, ".");
    assert DigitsIn(sign + "$" + whole + ".") == DigitsIn(whole);
    DigitsInConcat(sign + "$" + whole + ".", cents);
  }

  /** The digits of an amount spell its cents. */
  lemma PartsValue(sign: string, a: nat)
    requires DigitsIn(sign) == []
    ensures Value(DigitsIn(sign + "$" + Grouped(Numeral(a / 100)) + "." + Padded(a % 100))) == a
  {
    var whole, cents := a / 100, a % 100;
    DigitsInGrouped(Numeral(whole));
    DigitsInChars(Digits(whole));
    assert DigitsIn(Grouped(Numeral(whole))) == Digits(whole);
    PaddedDigits(cents);
    hide *;
    DigitsInParts(sign, Grouped(Numeral(whole)), Padded(cents));
    ValueTwoMore(Digits(whole), cents / 10, cents % 10);
    DigitsValue(whole);
  }

  /** Reading the sign and the digits back gives the amount printed. */
  lemma MoneyReads(c: int)
    ensures ReadCents(Money(c)) == c
  {
    var a := if c < 0 then -c else c;
    var sign := if c < 0 then "-" else "";
    NoDigits(sign);
    PartsValue(sign, a);
    hide DigitsIn, Grouped, Padded, Numeral;
    assert Money(c)[0] == if c < 0 then '-' else '$';
  }

  /** Different amounts never print alike. */
  lemma MoneyInjective(c: int, d: int)
    requires Money(c) == Money(d)
    ensures c == d
  {
    MoneyReads(c);
    MoneyReads(d);
  }

  function CommasIn(n: nat): nat { if n == 0 then 0 else (n - 1) / 3 }

  /** Counted from the right, exactly every fourth character of the grouped dollars is a comma, and none leads. */
  lemma {:induction false} GroupedByThrees(s: string, k: nat)
    requires forall i | 0 <= i < |s| :: IsDigit(s[i])
    requires k < |Grouped(s)|
    ensures |Grouped(s)| == |s| + CommasIn(|s|)
    ensures Grouped(s)[|Grouped(s)| - 1 - k] == ',' <==> k % 4 == 3
    ensures Grouped(s)[0] != ','
  {
    var rest := s[1..];
    var g := Grouped(rest);
    var sep := if |s| > 1 && (|s| - 1) % 3 == 0 then "," else "";
    assert Grouped(s) == [s[0]] + sep + g;
    if rest != "" {
      assert forall i | 0 <= i < |rest| :: IsDigit(rest[i]);
      GroupedByThrees(rest, if k < |g| then k else 0);
    }
  }
}
