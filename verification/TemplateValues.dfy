/** Payload values, path lookup through the scope chain, and the text a value is filled in as (src/notices/render.ts:30-53, 62-66, 121-134). */
module TemplateValues {
  import opened Basics
  import opened TemplateScan
  import D = Decimal
  import M = Money

  /** A payload value; numbers are whole, and only own members of arrays and objects are reachable. */
  datatype Value =
    | Undefined
    | Null
    | Bool(b: bool)
    | Num(n: int)
    | Big(n: int)
    | Str(s: string)
    | Arr(items: seq<Value>)
    | Obj(fields: map<string, Value>)

  /** One scope: the payload, or an item of an `each` with its index. */
  datatype Frame = Frame(data: Value, index: Option<nat>)

  /** The formatters this model takes as given: long dates, percentages, and the upper case of each character. */
  datatype Formats = Formats(longDate: Value -> string, pct: Value -> string, upperChar: char -> string)

  datatype Scope = Scope(frames: seq<Frame>, formats: Formats)

  function IntText(n: int): string { if n < 0 then "-" + M.Numeral(-n) else M.Numeral(n) }

  /** `path.split(".")`. */
  function SplitDots(path: string): (keys: seq<string>)
    ensures |keys| > 0
  {
    if path == "" then [""]
    else
      var rest := SplitDots(path[1..]);
      if path[0] == '.' then [""] + rest else [[path[0]] + rest[0]] + rest[1..]
  }

  /** `items[key]`: an element when the key is the decimal text of an index, or the length. */
  function ItemAt(items: seq<Value>, key: string, i: nat): Value
    requires i <= |items|
    decreases |items| - i
  {
    if i == |items| then (if key == "length" then Num(|items|) else Undefined)
    else if key == M.Numeral(i) then items[i]
    else ItemAt(items, key, i + 1)
  }

  function Member(v: Value, key: string): Value {
    match v
    case Arr(items) => ItemAt(items, key, 0)
    case Obj(fields) => if key in fields then fields[key] else Undefined
    case _ => Undefined
  }

  function Walk(v: Value, keys: seq<string>): Value
    decreases |keys|
  {
    if keys == [] then v else Walk(Member(v, keys[0]), keys[1..])
  }

  function GetPath(v: Value, path: string): Value {
    if path == "this" || path == "." then v else Walk(v, SplitDots(path))
  }

  /** The innermost scope that defines `path` answers. */
  function LookupIn(frames: seq<Frame>, path: string): Value {
    if frames == [] then Undefined
    else
      var v := GetPath(frames[|frames| - 1].data, path);
      if v != Undefined then v else LookupIn(frames[..|frames| - 1], path)
  }

  function Lookup(frames: seq<Frame>, path: string): Value {
    if path == "@index" then
      if frames != [] && frames[|frames| - 1].index.Some? then Num(frames[|frames| - 1].index.value) else Undefined
    else LookupIn(frames, path)
  }

  predicate Truthy(v: Value) {
    match v
    case Undefined => false
    case Null => false
    case Bool(b) => b
    case Num(n) => n != 0
    case Big(n) => n != 0
    case Str(s) => s != "" && s != "false"
    case Arr(items) => items != []
    case Obj(_) => true
  }

  /** `String(v)`. */
  function StringOf(v: Value): string {
    match v
    case Undefined => "undefined"
    case Null => "null"
    case Bool(b) => if b then "true" else "false"
    case Num(n) => IntText(n)
    case Big(n) => IntText(n)
    case Str(s) => s
    case Arr(items) => JoinItems(items)
    case Obj(_) => "[object Object]"
  }

  function JoinItems(items: seq<Value>): string {
    if items == [] then ""
    else
      var s := if items[0] == Undefined || items[0] == Null then "" else StringOf(items[0]);
      if |items| == 1 then s else s + "," + JoinItems(items[1..])
  }

  /** `String(v ?? "")`. */
  function TextOf(v: Value): string {
    if v == Undefined || v == Null then "" else StringOf(v)
  }

  function EscapeChar(c: char): string {
    if c == '&' then "&amp;" else if c == '<' then "&lt;" else if c == '>' then "&gt;" else if c == '"' then "&quot;" else [c]
  }

  /** The four successive replacements of `escapeHtml`; no replacement makes a character a later one replaces, so one pass does. */
  function EscapeHtml(s: string): string {
    if s == "" then "" else EscapeChar(s[0]) + EscapeHtml(s[1..])
  }

  /** `toUpperCase`: character by character, one character becoming one or more. */
  function Upper(s: string, upperChar: char -> string): string {
    if s == "" then "" else upperChar(s[0]) + Upper(s[1..], upperChar)
  }

  predicate AllDigits(s: string) {
    s != "" && forall i | 0 <= i < |s| :: M.IsDigit(s[i])
  }

  function MoneyText(v: Value): string {
    match v
    case Big(n) => M.Money(n)
    case Num(n) => M.Money(n)
    case Str(s) =>
      var neg := Begins(s, "-");
      var ds := if neg then s[1..] else s;
      if AllDigits(ds) then M.Money(M.ReadCents(s)) else ""
    case _ => ""
  }

  // ---- inline values

  /** A `{{...}}` or `{{{...}}}` found at the start of a string: raw or not, its expression, the length of its text. */
  datatype Slot = Slot(raw: bool, expr: string, len: nat)

  /** The expression a triple-brace value captures: the content without its surrounding space, or the last space of an all-space content. */
  function RawExpr(c: string): string {
    if Trim(c) == "" && c != "" then c[|c| - 1..] else Trim(c)
  }

  function RawSlot(r: string): (s: Option<Slot>)
    ensures s.Some? ==> 0 < s.value.len <= |r|
  {
    if !Begins(r, "{{{") then None
    else
      var n := FirstBrace(r[3..]);
      if n > 0 && Begins(r[3 + n..], "}}}") then Some(Slot(true, RawExpr(r[3..3 + n]), n + 6)) else None
  }

  function PlainSlot(r: string): (s: Option<Slot>)
    ensures s.Some? ==> 0 < s.value.len <= |r|
  {
    if !Begins(r, "{{") then None
    else
      var n := FirstBrace(r[2..]);
      if n > 0 && r[2] != '#' && r[2] != '/' && Begins(r[2 + n..], "}}") then Some(Slot(false, Trim(r[2..2 + n]), n + 4)) else None
  }

  /** The inline value at the start of `r`: three braces are tried first, then two. */
  function SlotOf(r: string): (s: Option<Slot>)
    ensures s.Some? ==> 0 < s.value.len <= |r|
  {
    var raw := RawSlot(r);
    if raw.Some? then raw else PlainSlot(r)
  }

  /** `expr` without the helper name `h` and the white space after it. */
  function HelperArg(expr: string, h: string): Option<string> {
    if Begins(expr, h) && |h| < |expr| && IsSpace(expr[|h|]) then
      var rest := TrimStart(expr[|h|..]);
      if rest != "" && forall i | 0 <= i < |rest| :: rest[i] !in "\n\r\U{2028}\U{2029}" then Some(rest) else None
    else None
  }

  /** What a slot is replaced by. */
  function Fill(slot: Slot, sc: Scope): string {
    if slot.raw then TextOf(Lookup(sc.frames, slot.expr))
    else if slot.expr == "else" then ""
    else if HelperArg(slot.expr, "money").Some? then MoneyText(Lookup(sc.frames, HelperArg(slot.expr, "money").value))
    else if HelperArg(slot.expr, "date").Some? then sc.formats.longDate(Lookup(sc.frames, HelperArg(slot.expr, "date").value))
    else if HelperArg(slot.expr, "pct").Some? then sc.formats.pct(Lookup(sc.frames, HelperArg(slot.expr, "pct").value))
    else if HelperArg(slot.expr, "upper").Some? then Upper(EscapeHtml(TextOf(Lookup(sc.frames, HelperArg(slot.expr, "upper").value))), sc.formats.upperChar)
    else EscapeHtml(TextOf(Lookup(sc.frames, slot.expr)))
  }

  /** Every inline value of `s` replaced, leftmost first; the rest of the text kept. */
  function RenderInline(s: string, sc: Scope): string {
    if s == "" then ""
    else
      match SlotOf(s)
      case Some(slot) => Fill(slot, sc) + RenderInline(s[slot.len..], sc)
      case None => [s[0]] + RenderInline(s[1..], sc)
  }

  // ---- what lookup answers

  /**
   * A path other than `@index` is answered by the innermost scope that defines it: exactly when some scope
   * has a value for it and no scope further in does.
   */
  lemma {:induction false} LookupInnermost(frames: seq<Frame>, path: string, i: nat)
    requires path != "@index" && i < |frames|
    requires GetPath(frames[i].data, path) != Undefined
    requires forall j | i < j < |frames| :: GetPath(frames[j].data, path) == Undefined
    ensures Lookup(frames, path) == GetPath(frames[i].data, path)
    decreases |frames|
  {
    hide GetPath;
    if i < |frames| - 1 {
      LookupInnermost(frames[..|frames| - 1], path, i);
    }
  }

  lemma {:induction false} LookupNowhere(frames: seq<Frame>, path: string)
    requires path != "@index"
    ensures Lookup(frames, path) == Undefined <==> forall i | 0 <= i < |frames| :: GetPath(frames[i].data, path) == Undefined
  {
    hide GetPath;
    if frames != [] {
      var init := frames[..|frames| - 1];
      LookupNowhere(init, path);
      forall i | 0 <= i < |init| ensures init[i] == frames[i] {}
      if GetPath(frames[|frames| - 1].data, path) == Undefined && LookupIn(init, path) == Undefined {
        forall i | 0 <= i < |frames| ensures GetPath(frames[i].data, path) == Undefined {
          if i < |init| { assert init[i] == frames[i]; }
        }
      }
    }
  }

  function JoinDots(keys: seq<string>): string
    requires keys != []
  {
    if |keys| == 1 then keys[0] else keys[0] + "." + JoinDots(keys[1..])
  }

  /** The keys of a path have no dots, and joined by dots they are the path. */
  lemma {:induction false} SplitJoins(path: string)
    ensures JoinDots(SplitDots(path)) == path
    ensures forall k | k in SplitDots(path) :: '.' !in k
  {
    if path != "" {
      SplitJoins(path[1..]);
      var rest := SplitDots(path[1..]);
      assert path == [path[0]] + path[1..];
      if path[0] == '.' {
        assert ([""] + rest)[1..] == rest;
      } else {
        var keys := [[path[0]] + rest[0]] + rest[1..];
        assert keys[1..] == rest[1..];
        forall k | k in keys ensures '.' !in k {
          if k == keys[0] { assert rest[0] in rest; } else { assert k in rest[1..]; }
        }
      }
    }
  }

  lemma NumeralsDiffer(i: nat, j: nat)
    requires i != j
    ensures M.Numeral(i) != M.Numeral(j)
  {
    M.DigitsInChars(D.Digits(i));
    M.DigitsInChars(D.Digits(j));
    D.DigitsValue(i);
    D.DigitsValue(j);
  }

  /** The decimal text of an index reaches that element of an array. */
  lemma {:induction false} ElementAt(items: seq<Value>, i: nat, k: nat)
    requires i <= k < |items|
    ensures ItemAt(items, M.Numeral(k), i) == items[k]
    decreases k - i
  {
    hide M.Numeral;
    if i < k {
      NumeralsDiffer(i, k);
      ElementAt(items, i + 1, k);
    }
  }
}
