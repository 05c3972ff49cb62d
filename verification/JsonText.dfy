/**
 * JSON texts over UTF-16 code units, as `JSON.stringify` prints them (RFC 8259, sections 4 to 7), and a
 * reader for them.  Reading undoes printing, so a text determines the document it was printed from.
 */
module JsonText {
  import opened Basics

  type CodeUnit = u: int | 0 <= u < 0x1_0000

  type Text = seq<CodeUnit>

  /** A document: a finite number is its own text, and members stand in the order they are printed. */
  datatype Doc =
    | DNull
    | DBool(b: bool)
    | DNum(digits: Text)
    | DStr(s: Text)
    | DArr(items: seq<Doc>)
    | DObj(members: seq<DocMember>)

  datatype DocMember = DocMember(key: Text, value: Doc)

  const QUOTE: CodeUnit := 0x22
  const COMMA: CodeUnit := 0x2C
  const COLON: CodeUnit := 0x3A
  const OPEN_ARR: CodeUnit := 0x5B
  const BACKSLASH: CodeUnit := 0x5C
  const CLOSE_ARR: CodeUnit := 0x5D
  const LOWER_U: CodeUnit := 0x75
  const OPEN_OBJ: CodeUnit := 0x7B
  const CLOSE_OBJ: CodeUnit := 0x7D
  const NULL_TEXT: Text := [0x6E, 0x75, 0x6C, 0x6C]
  const TRUE_TEXT: Text := [0x74, 0x72, 0x75, 0x65]
  const FALSE_TEXT: Text := [0x66, 0x61, 0x6C, 0x73, 0x65]

  /** The characters number texts are made of: digits, signs, the point and the exponent letters. */
  predicate IsNumUnit(u: CodeUnit) {
    0x30 <= u <= 0x39 || u == 0x2B || u == 0x2D || u == 0x2E || u == 0x45 || u == 0x65
  }

  predicate IsNumText(t: Text) {
    t != [] && forall i | 0 <= i < |t| :: IsNumUnit(t[i])
  }

  predicate WellFormed(d: Doc) {
    match d
    case DNum(t) => IsNumText(t)
    case DArr(items) => forall i | 0 <= i < |items| :: WellFormed(items[i])
    case DObj(members) => forall i | 0 <= i < |members| :: WellFormed(members[i].value)
    case _ => true
  }

  // ---- string escapes

  predicate IsHigh(u: CodeUnit) { 0xD800 <= u < 0xDC00 }
  predicate IsLow(u: CodeUnit) { 0xDC00 <= u < 0xE000 }

  function HexDigit(n: int): CodeUnit
    requires 0 <= n < 16
  {
    if n < 10 then 0x30 + n else 0x61 + n - 10
  }

  function HexValue(u: CodeUnit): int {
    if 0x30 <= u <= 0x39 then u - 0x30 else if 0x61 <= u <= 0x66 then u - 0x61 + 10 else -1
  }

  function UnicodeEscape(u: CodeUnit): (t: Text)
    ensures |t| == 6
  {
    [BACKSLASH, LOWER_U, HexDigit(u / 0x1000), HexDigit(u / 0x100 % 0x10), HexDigit(u / 0x10 % 0x10), HexDigit(u % 0x10)]
  }

  /** The letter of a two-character escape. */
  function ShortEscape(u: CodeUnit): Option<CodeUnit> {
    if u == 0x08 then Some(0x62)
    else if u == 0x09 then Some(0x74)
    else if u == 0x0A then Some(0x6E)
    else if u == 0x0C then Some(0x66)
    else if u == 0x0D then Some(0x72)
    else if u == QUOTE then Some(QUOTE)
    else if u == BACKSLASH then Some(BACKSLASH)
    else None
  }

  /** One unit that is not half of a surrogate pair. */
  function EscapeUnit(u: CodeUnit): Text {
    match ShortEscape(u)
    case Some(letter) => [BACKSLASH, letter]
    case None => if u < 0x20 || IsHigh(u) || IsLow(u) then UnicodeEscape(u) else [u]
  }

  /** Surrogate pairs are printed as they are, lone surrogates as escapes. */
  function Escape(s: Text): Text {
    if s == [] then []
    else if |s| > 1 && IsHigh(s[0]) && IsLow(s[1]) then [s[0], s[1]] + Escape(s[2..])
    else EscapeUnit(s[0]) + Escape(s[1..])
  }

  function Quoted(s: Text): Text { [QUOTE] + Escape(s) + [QUOTE] }

  // ---- printing

  function Print(d: Doc): Text {
    match d
    case DNull => NULL_TEXT
    case DBool(b) => if b then TRUE_TEXT else FALSE_TEXT
    case DNum(t) => t
    case DStr(s) => Quoted(s)
    case DArr(items) => [OPEN_ARR] + PrintItems(items) + [CLOSE_ARR]
    case DObj(members) => [OPEN_OBJ] + PrintMembers(members) + [CLOSE_OBJ]
  }

  function PrintItems(items: seq<Doc>): Text {
    if items == [] then []
    else if |items| == 1 then Print(items[0])
    else Print(items[0]) + [COMMA] + PrintItems(items[1..])
  }

  function PrintMember(m: DocMember): Text { Quoted(m.key) + [COLON] + Print(m.value) }

  function PrintMembers(members: seq<DocMember>): Text {
    if members == [] then []
    else if |members| == 1 then PrintMember(members[0])
    else PrintMember(members[0]) + [COMMA] + PrintMembers(members[1..])
  }

  // ---- reading

  datatype Read<+T> = Failed | Got(value: T, rest: Text)

  function UnescapeShort(letter: CodeUnit): Option<CodeUnit> {
    if letter == 0x62 then Some(0x08)
    else if letter == 0x74 then Some(0x09)
    else if letter == 0x6E then Some(0x0A)
    else if letter == 0x66 then Some(0x0C)
    else if letter == 0x72 then Some(0x0D)
    else if letter == QUOTE || letter == BACKSLASH then Some(letter)
    else None
  }

  /** One character of a string body, escaped or not. */
  function ReadUnit(t: Text): (r: Read<CodeUnit>)
    ensures r.Got? ==> |r.rest| < |t|
  {
    if t == [] || t[0] == QUOTE then Failed
    else if t[0] != BACKSLASH then Got(t[0], t[1..])
    else if |t| >= 2 && UnescapeShort(t[1]).Some? then Got(UnescapeShort(t[1]).value, t[2..])
    else if |t| >= 6 && t[1] == LOWER_U && forall i | 2 <= i < 6 :: HexValue(t[i]) >= 0 then
      Got(HexValue(t[2]) * 0x1000 + HexValue(t[3]) * 0x100 + HexValue(t[4]) * 0x10 + HexValue(t[5]), t[6..])
    else Failed
  }

  /** A string body up to and including its closing quote. */
  function ReadBody(t: Text): (r: Read<Text>)
    ensures r.Got? ==> |r.rest| < |t|
    decreases |t|
  {
    if t != [] && t[0] == QUOTE then Got([], t[1..])
    else
      match ReadUnit(t)
      case Failed => Failed
      case Got(u, rest) =>
        match ReadBody(rest)
        case Failed => Failed
        case Got(s, rest') => Got([u] + s, rest')
  }

  function NumLen(t: Text): (n: nat)
    ensures n <= |t|
  {
    if t != [] && IsNumUnit(t[0]) then 1 + NumLen(t[1..]) else 0
  }

  function ReadDoc(t: Text): (r: Read<Doc>)
    ensures r.Got? ==> |r.rest| < |t|
    decreases |t|, 0
  {
    if t == [] then Failed
    else if t[0] == QUOTE then
      match ReadBody(t[1..])
      case Failed => Failed
      case Got(s, rest) => Got(DStr(s), rest)
    else if t[0] == OPEN_ARR then
      if |t| > 1 && t[1] == CLOSE_ARR then Got(DArr([]), t[2..])
      else
        match ReadItems(t[1..])
        case Failed => Failed
        case Got(items, rest) => Got(DArr(items), rest)
    else if t[0] == OPEN_OBJ then
      if |t| > 1 && t[1] == CLOSE_OBJ then Got(DObj([]), t[2..])
      else
        match ReadMembers(t[1..])
        case Failed => Failed
        case Got(members, rest) => Got(DObj(members), rest)
    else if IsNumUnit(t[0]) then Got(DNum(t[..NumLen(t)]), t[NumLen(t)..])
    else if NULL_TEXT <= t then Got(DNull, t[4..])
    else if TRUE_TEXT <= t then Got(DBool(true), t[4..])
    else if FALSE_TEXT <= t then Got(DBool(false), t[5..])
    else Failed
  }

  /** At least one item, up to and including the closing bracket. */
  function ReadItems(t: Text): (r: Read<seq<Doc>>)
    ensures r.Got? ==> |r.rest| < |t|
    decreases |t|, 1
  {
    match ReadDoc(t)
    case Failed => Failed
    case Got(d, rest) =>
      if rest != [] && rest[0] == CLOSE_ARR then Got([d], rest[1..])
      else if rest != [] && rest[0] == COMMA then
        match ReadItems(rest[1..])
        case Failed => Failed
        case Got(ds, rest') => Got([d] + ds, rest')
      else Failed
  }

  function ReadMember(t: Text): (r: Read<DocMember>)
    ensures r.Got? ==> |r.rest| < |t|
    decreases |t|, 1
  {
    if t == [] || t[0] != QUOTE then Failed
    else
      match ReadBody(t[1..])
      case Failed => Failed
      case Got(key, rest) =>
        if rest == [] || rest[0] != COLON then Failed
        else
          match ReadDoc(rest[1..])
          case Failed => Failed
          case Got(d, rest') => Got(DocMember(key, d), rest')
  }

  function ReadMembers(t: Text): (r: Read<seq<DocMember>>)
    ensures r.Got? ==> |r.rest| < |t|
    decreases |t|, 2
  {
    match ReadMember(t)
    case Failed => Failed
    case Got(m, rest) =>
      if rest != [] && rest[0] == CLOSE_OBJ then Got([m], rest[1..])
      else if rest != [] && rest[0] == COMMA then
        match ReadMembers(rest[1..])
        case Failed => Failed
        case Got(ms, rest') => Got([m] + ms, rest')
      else Failed
  }

  // ---- reading undoes printing

  lemma HexRoundTrip(n: int)
    requires 0 <= n < 16
    ensures HexValue(HexDigit(n)) == n
  {
  }

  lemma HexSum(u: CodeUnit)
    ensures u == u / 0x1000 * 0x1000 + u / 0x100 % 0x10 * 0x100 + u / 0x10 % 0x10 * 0x10 + u % 0x10
    ensures u / 0x1000 < 0x10
  {
    assert u / 0x100 == u / 0x1000 * 0x10 + u / 0x100 % 0x10;
    assert u / 0x10 == u / 0x100 * 0x10 + u / 0x10 % 0x10;
  }

  lemma UnicodeRoundTrip(u: CodeUnit, rest: Text)
    ensures ReadUnit(UnicodeEscape(u) + rest) == Got(u, rest)
  {
    hide HexDigit, HexValue;
    var t := UnicodeEscape(u) + rest;
    HexSum(u);
    HexRoundTrip(u / 0x1000);
    HexRoundTrip(u / 0x100 % 0x10);
    HexRoundTrip(u / 0x10 % 0x10);
    HexRoundTrip(u % 0x10);
    assert t[6..] == rest;
  }

  lemma UnitRoundTrip(u: CodeUnit, rest: Text)
    ensures ReadUnit(EscapeUnit(u) + rest) == Got(u, rest)
    ensures (EscapeUnit(u) + rest)[0] != QUOTE
  {
    var t := EscapeUnit(u) + rest;
    if ShortEscape(u).Some? {
      assert t[2..] == rest;
    } else if u < 0x20 || IsHigh(u) || IsLow(u) {
      UnicodeRoundTrip(u, rest);
    } else {
      assert t[1..] == rest;
    }
  }

  lemma {:induction false} BodyRoundTrip(s: Text, rest: Text)
    ensures ReadBody(Escape(s) + [QUOTE] + rest) == Got(s, rest)
  {
    hide EscapeUnit, ReadUnit;
    var t := Escape(s) + [QUOTE] + rest;
    if s == [] {
      assert t[1..] == rest;
    } else if |s| > 1 && IsHigh(s[0]) && IsLow(s[1]) {
      BodyRoundTrip(s[2..], rest);
      var t2 := Escape(s[2..]) + [QUOTE] + rest;
      assert t == [s[0]] + ([s[1]] + t2);
      RawRoundTrip(s[1], t2);
      RawRoundTrip(s[0], [s[1]] + t2);
      assert s == [s[0]] + ([s[1]] + s[2..]);
    } else {
      BodyRoundTrip(s[1..], rest);
      var t1 := Escape(s[1..]) + [QUOTE] + rest;
      assert t == EscapeUnit(s[0]) + t1;
      UnitRoundTrip(s[0], t1);
      assert s == [s[0]] + s[1..];
    }
  }

  lemma RawRoundTrip(u: CodeUnit, rest: Text)
    requires u != QUOTE && u != BACKSLASH
    ensures ReadUnit([u] + rest) == Got(u, rest)
  {
    assert ([u] + rest)[1..] == rest;
  }

  /** `rest` cannot prolong a number. */
  predicate Delimits(rest: Text) { rest == [] || !IsNumUnit(rest[0]) }

  lemma {:induction false} NumRoundTrip(t: Text, rest: Text)
    requires forall i | 0 <= i < |t| :: IsNumUnit(t[i])
    requires Delimits(rest)
    ensures NumLen(t + rest) == |t|
  {
    if t != [] {
      NumRoundTrip(t[1..], rest);
      assert (t + rest)[1..] == t[1..] + rest;
    } else {
      assert t + rest == rest;
    }
  }

  lemma PrintStart(d: Doc)
    requires WellFormed(d)
    ensures Print(d) != [] && Print(d)[0] != CLOSE_ARR && Print(d)[0] != CLOSE_OBJ && Print(d)[0] != COMMA
  {
    hide Escape, PrintItems, PrintMembers;
  }

  lemma StringRoundTrip(s: Text, rest: Text)
    ensures var t := Quoted(s) + rest; t[0] == QUOTE && ReadBody(t[1..]) == Got(s, rest)
  {
    hide Escape, ReadBody;
    var t := Quoted(s) + rest;
    BodyRoundTrip(s, rest);
    assert t[1..] == Escape(s) + [QUOTE] + rest;
  }

  lemma LiteralRoundTrip(rest: Text)
    ensures ReadDoc(NULL_TEXT + rest) == Got(DNull, rest)
    ensures ReadDoc(TRUE_TEXT + rest) == Got(DBool(true), rest)
    ensures ReadDoc(FALSE_TEXT + rest) == Got(DBool(false), rest)
  {
    assert (NULL_TEXT + rest)[4..] == rest;
    assert (TRUE_TEXT + rest)[4..] == rest;
    assert (FALSE_TEXT + rest)[5..] == rest;
  }

  lemma NumDocRoundTrip(n: Text, rest: Text)
    requires IsNumText(n) && Delimits(rest)
    ensures ReadDoc(n + rest) == Got(DNum(n), rest)
  {
    var t := n + rest;
    NumRoundTrip(n, rest);
    assert t[0] == n[0];
    assert t[..|n|] == n && t[|n|..] == rest;
  }

  lemma StringDocRoundTrip(s: Text, rest: Text)
    ensures ReadDoc(Print(DStr(s)) + rest) == Got(DStr(s), rest)
  {
    hide ReadBody, Escape, ReadItems, ReadMembers, NumLen;
    var t := Print(DStr(s)) + rest;
    assert Print(DStr(s)) == Quoted(s);
    StringRoundTrip(s, rest);
    assert t != [] && t[0] == QUOTE;
  }

  /** Reading a printed document gives it back, whatever follows that does not prolong a number. */
  lemma {:induction false} DocRoundTrip(d: Doc, rest: Text)
    requires WellFormed(d) && Delimits(rest)
    ensures ReadDoc(Print(d) + rest) == Got(d, rest)
    decreases d, 1
  {
    hide ReadBody, ReadItems, ReadMembers, PrintItems, PrintMembers, Quoted, NumLen;
    match d
    case DNull => LiteralRoundTrip(rest);
    case DBool(_) => LiteralRoundTrip(rest);
    case DNum(n) => NumDocRoundTrip(n, rest);
    case DStr(s) => StringDocRoundTrip(s, rest);
    case DArr(items) => ArrRoundTrip(d, rest);
    case DObj(members) => ObjRoundTrip(d, rest);
  }

  lemma {:induction false} ArrRoundTrip(d: Doc, rest: Text)
    requires d.DArr? && WellFormed(d)
    ensures ReadDoc(Print(d) + rest) == Got(d, rest)
    decreases d, 0
  {
    hide ReadBody, ReadItems, ReadMembers, PrintMembers, Quoted, NumLen;
    var t := Print(d) + rest;
    if d.items == [] {
      assert Print(d) == [OPEN_ARR, CLOSE_ARR];
      assert t[2..] == rest;
    } else {
      ItemsRoundTrip(d.items, rest);
      PrintStart(d.items[0]);
      assert t[1..] == PrintItems(d.items) + [CLOSE_ARR] + rest;
      assert t[1] == Print(d.items[0])[0];
    }
  }

  lemma {:induction false} ItemsRoundTrip(items: seq<Doc>, rest: Text)
    requires items != [] && forall i | 0 <= i < |items| :: WellFormed(items[i])
    ensures ReadItems(PrintItems(items) + [CLOSE_ARR] + rest) == Got(items, rest)
    decreases items
  {
    hide ReadDoc, Print;
    var t := PrintItems(items) + [CLOSE_ARR] + rest;
    if |items| == 1 {
      DocRoundTrip(items[0], [CLOSE_ARR] + rest);
      assert t == Print(items[0]) + ([CLOSE_ARR] + rest);
      assert ([CLOSE_ARR] + rest)[1..] == rest;
      assert items == [items[0]];
    } else {
      var more := PrintItems(items[1..]) + [CLOSE_ARR] + rest;
      DocRoundTrip(items[0], [COMMA] + more);
      assert t == Print(items[0]) + ([COMMA] + more);
      assert ([COMMA] + more)[1..] == more;
      ItemsRoundTrip(items[1..], rest);
      assert items == [items[0]] + items[1..];
    }
  }

  lemma {:induction false} ObjRoundTrip(d: Doc, rest: Text)
    requires d.DObj? && WellFormed(d)
    ensures ReadDoc(Print(d) + rest) == Got(d, rest)
    decreases d, 0
  {
    hide ReadBody, ReadItems, ReadMembers, PrintItems, NumLen, Escape;
    var t := Print(d) + rest;
    if d.members == [] {
      assert Print(d) == [OPEN_OBJ, CLOSE_OBJ];
      assert t[2..] == rest;
    } else {
      MembersRoundTrip(d.members, rest);
      assert t[1..] == PrintMembers(d.members) + [CLOSE_OBJ] + rest;
      assert t[1] == Quoted(d.members[0].key)[0];
    }
  }

  lemma {:induction false} MemberRoundTrip(m: DocMember, rest: Text)
    requires WellFormed(m.value) && Delimits(rest)
    ensures ReadMember(PrintMember(m) + rest) == Got(m, rest)
    decreases m
  {
    hide ReadBody, ReadDoc, Print, Quoted;
    var after := [COLON] + (Print(m.value) + rest);
    assert PrintMember(m) + rest == Quoted(m.key) + after;
    StringRoundTrip(m.key, after);
    DocRoundTrip(m.value, rest);
    assert after[1..] == Print(m.value) + rest;
  }

  lemma {:induction false} MembersRoundTrip(members: seq<DocMember>, rest: Text)
    requires members != [] && forall i | 0 <= i < |members| :: WellFormed(members[i].value)
    ensures ReadMembers(PrintMembers(members) + [CLOSE_OBJ] + rest) == Got(members, rest)
    decreases members
  {
    hide ReadMember, PrintMember;
    var t := PrintMembers(members) + [CLOSE_OBJ] + rest;
    if |members| == 1 {
      MemberRoundTrip(members[0], [CLOSE_OBJ] + rest);
      assert t == PrintMember(members[0]) + ([CLOSE_OBJ] + rest);
      assert ([CLOSE_OBJ] + rest)[1..] == rest;
      assert members == [members[0]];
    } else {
      var more := PrintMembers(members[1..]) + [CLOSE_OBJ] + rest;
      MemberRoundTrip(members[0], [COMMA] + more);
      assert t == PrintMember(members[0]) + ([COMMA] + more);
      assert ([COMMA] + more)[1..] == more;
      MembersRoundTrip(members[1..], rest);
      assert members == [members[0]] + members[1..];
    }
  }

  /** Two documents with one text are one document. */
  lemma PrintInjective(d: Doc, e: Doc)
    requires WellFormed(d) && WellFormed(e) && Print(d) == Print(e)
    ensures d == e
  {
    hide Print, ReadDoc, WellFormed;
    DocRoundTrip(d, []);
    DocRoundTrip(e, []);
    assert Print(d) + [] == Print(e) + [];
  }

  // ---- the texts themselves

  function Units(s: string): (t: Text)
    requires forall i | 0 <= i < |s| :: s[i] as int < 0x1_0000
    ensures |t| == |s| && forall i | 0 <= i < |s| :: t[i] == s[i] as int
  {
    seq(|s|, i requires 0 <= i < |s| => s[i] as int)
  }

  /** The words of the texts. */
  lemma Words()
    ensures Print(DNull) == Units("null") && Print(DBool(true)) == Units("true") && Print(DBool(false)) == Units("false")
    ensures Print(DArr([])) == Units("[]") && Print(DObj([])) == Units("{}")
  {
    assert PrintItems([]) == [] && PrintMembers([]) == [];
  }

  /** Brackets around the items of an array, and commas between them. */
  lemma ArrayPunctuation(a: Doc, b: Doc)
    ensures Print(DArr([a, b])) == Units("[") + Print(a) + Units(",") + Print(b) + Units("]")
  {
    hide Quoted, PrintMembers, Escape;
    assert [a, b][1..] == [b];
    assert PrintItems([b]) == Print(b);
    assert PrintItems([a, b]) == Print(a) + [COMMA] + Print(b);
    assert [OPEN_ARR] == Units("[") && [COMMA] == Units(",") && [CLOSE_ARR] == Units("]");
  }

  /** Braces around the members of an object, commas between them, and a colon after each key. */
  lemma ObjectPunctuation(m: DocMember, n: DocMember)
    ensures Print(DObj([m, n])) ==
            Units("{") + (Print(DStr(m.key)) + Units(":") + Print(m.value)) + Units(",") + (Print(DStr(n.key)) + Units(":") + Print(n.value)) + Units("}")
  {
    hide Quoted, PrintItems, Escape;
    assert [m, n][1..] == [n];
    assert PrintMembers([n]) == PrintMember(n);
    assert PrintMembers([m, n]) == PrintMember(m) + [COMMA] + PrintMember(n);
    assert [OPEN_OBJ] == Units("{") && [COMMA] == Units(",") && [COLON] == Units(":") && [CLOSE_OBJ] == Units("}");
    assert Print(DStr(m.key)) == Quoted(m.key) && Print(DStr(n.key)) == Quoted(n.key);
  }

  /** A character stands for itself, except a quote, a backslash, a control character and half of a surrogate pair. */
  lemma Characters(u: CodeUnit)
    ensures u >= 0x20 && u != 0x22 && u != 0x5C && !(0xD800 <= u <= 0xDFFF) ==> EscapeUnit(u) == [u]
    ensures EscapeUnit('"' as int) == Units("\\\"") && EscapeUnit('\\' as int) == Units("\\\\")
    ensures EscapeUnit(0x08) == Units("\\b") && EscapeUnit(0x09) == Units("\\t") && EscapeUnit(0x0A) == Units("\\n")
    ensures EscapeUnit(0x0C) == Units("\\f") && EscapeUnit(0x0D) == Units("\\r")
    ensures EscapeUnit(0x1F) == Units("\\u001f") && EscapeUnit(0xDBCD) == Units("\\udbcd")
  {
  }
}
