/**
 * What each kind of section and of inline value shows, for each kind of value and with the template's text
 * spelled out (src/notices/render.ts:29-37, 62-68, 88-134): which branch a section takes, what an item of an
 * `each` sees, what stands around a block, and what a value is filled in as.
 */
module TemplateShows {
  import opened Basics
  import opened TemplateScan
  import opened TemplateValues
  import opened TemplateEngine
  import opened TemplateTrees
  import B = BlockArguments
  import opened RecoveredText
  import D = Decimal
  import M = Money

  // ---- the branch of a section

  /** A tree of one node renders to what the node means. */
  lemma OneNode(n: Node, sc: Scope)
    requires WellFormedNode(n)
    ensures SectionFrom(PrintNode(n), 0, sc) == NodeMeaning(n, sc)
  {
    hide SectionFrom, PrintNode, NodeMeaning, WellFormedNode;
    var ns := Cons(n, Nil);
    assert PrintNode(n) + "" == PrintNode(n);
    assert Print(ns) == PrintNode(n);
    SourceMeaning(ns, sc);
    if NodeMeaning(n, sc).Ok? { ThenNothing(NodeMeaning(n, sc).value, Ok(NOTHING)); }
  }

  lemma SectText(tag: Tag, open: string, close: string, arg: string, body: Nodes, els: Else)
    requires open == OpenText(tag) && close == CloseText(tag)
    ensures PrintNode(Sect(tag, arg, body, els)) ==
            open + arg + "}}" + Print(body) + (if els.Else? then "{{else}}" + Print(els.nodes) else "") + close
  {
    hide Print, OpenText, CloseText;
    assert open + (arg + "}}") == open + arg + "}}";
  }

  /**
   * An `if` shows its body exactly when the value is `true`, a number other than zero, a text other than the
   * empty one and "false", an array with items, or an object; otherwise it shows its else, or nothing.
   */
  lemma IfShows(arg: string, body: Nodes, els: Else, sc: Scope)
    requires WellFormedArg(arg) && WellFormed(body) && (els.Else? ==> WellFormed(els.nodes))
    ensures var src := "{{#if" + arg + "}}" + Print(body) + (if els.Else? then "{{else}}" + Print(els.nodes) else "") + "{{/if}}";
            var shown, inner := SectionFrom(src, 0, sc), Meaning(body, sc);
            var other := if els.Else? then Meaning(els.nodes, sc) else Ok(Out("", []));
            match Lookup(sc.frames, Trim(arg))
            case Undefined => shown == other
            case Null => shown == other
            case Bool(b) => shown == if b then inner else other
            case Num(n) => shown == if n == 0 then other else inner
            case Big(n) => shown == if n == 0 then other else inner
            case Str(s) => shown == if s == "" || s == "false" then other else inner
            case Arr(items) => shown == if |items| == 0 then other else inner
            case Obj(_) => shown == inner
  {
    hide SectionFrom, Meaning, Print, WellFormed, WellFormedArg, Lookup;
    var n := Sect(If, arg, body, els);
    OneNode(n, sc);
    SectText(If, "{{#if", "{{/if}}", arg, body, els);
  }

  /** An `unless` shows its body exactly when an `if` of the same value would not. */
  lemma UnlessShows(arg: string, body: Nodes, els: Else, sc: Scope)
    requires WellFormedArg(arg) && WellFormed(body) && (els.Else? ==> WellFormed(els.nodes))
    ensures var src := "{{#unless" + arg + "}}" + Print(body) + (if els.Else? then "{{else}}" + Print(els.nodes) else "") + "{{/unless}}";
            var shown, inner := SectionFrom(src, 0, sc), Meaning(body, sc);
            var other := if els.Else? then Meaning(els.nodes, sc) else Ok(Out("", []));
            match Lookup(sc.frames, Trim(arg))
            case Undefined => shown == inner
            case Null => shown == inner
            case Bool(b) => shown == if b then other else inner
            case Num(n) => shown == if n == 0 then inner else other
            case Big(n) => shown == if n == 0 then inner else other
            case Str(s) => shown == if s == "" || s == "false" then inner else other
            case Arr(items) => shown == if |items| == 0 then inner else other
            case Obj(_) => shown == other
  {
    hide SectionFrom, Meaning, Print, WellFormed, WellFormedArg, Lookup;
    var n := Sect(Unless, arg, body, els);
    OneNode(n, sc);
    SectText(Unless, "{{#unless", "{{/unless}}", arg, body, els);
  }

  /**
   * An `each` shows its body once per item of an array, in order; of an empty array and of every other value
   * it shows its else, or nothing.
   */
  lemma EachShows(arg: string, body: Nodes, els: Else, sc: Scope)
    requires WellFormedArg(arg) && WellFormed(body) && (els.Else? ==> WellFormed(els.nodes))
    ensures var src := "{{#each" + arg + "}}" + Print(body) + (if els.Else? then "{{else}}" + Print(els.nodes) else "") + "{{/each}}";
            var shown, v := SectionFrom(src, 0, sc), Lookup(sc.frames, Trim(arg));
            && (!v.Arr? || |v.items| == 0 ==> shown == if els.Else? then Meaning(els.nodes, sc) else Ok(Out("", [])))
            && (v.Arr? && |v.items| > 0 ==> shown == ItemsMeaning(v.items, 0, body, sc))
  {
    hide SectionFrom, Meaning, Print, WellFormed, WellFormedArg, Lookup, ItemsMeaning;
    var n := Sect(Each, arg, body, els);
    OneNode(n, sc);
    SectText(Each, "{{#each", "{{/each}}", arg, body, els);
  }

  /** Inside an `each`, `@index` is the item's place, `this` the item, and a path the item does not define is looked up outside. */
  lemma ItemSees(sc: Scope, items: seq<Value>, k: nat, path: string)
    requires k < |items|
    ensures var inside := ItemScope(sc, items, k);
            && inside.formats == sc.formats
            && Lookup(inside.frames, "@index") == Num(k)
            && (items[k] != Undefined ==> Lookup(inside.frames, "this") == items[k] == Lookup(inside.frames, "."))
            && (path != "@index" && GetPath(items[k], path) != Undefined ==> Lookup(inside.frames, path) == GetPath(items[k], path))
            && (path != "@index" && GetPath(items[k], path) == Undefined ==> Lookup(inside.frames, path) == Lookup(sc.frames, path))
  {
    hide Walk;
    var frames := ItemScope(sc, items, k).frames;
    assert frames[..|frames| - 1] == sc.frames;
  }

  /** A member of an object is found by its key, and what lies below it by the rest of the path. */
  lemma MemberSeen(fields: map<string, Value>, key: string, rest: string)
    requires '.' !in key && key != "" && rest != "this" && rest != "."
    ensures key != "this" ==> GetPath(Obj(fields), key) == if key in fields then fields[key] else Undefined
    ensures key in fields ==> GetPath(Obj(fields), key + "." + rest) == GetPath(fields[key], rest)
  {
    hide SplitDots;
    assert "."[0] == '.' && key != ".";
    SplitKey(key);
    SplitFirst(key, rest);
    var path := key + "." + rest;
    assert path[|key|] == '.';
    assert path != "this" && path != ".";
    assert ([key] + SplitDots(rest))[1..] == SplitDots(rest);
    var m := Member(Obj(fields), key);
    assert [key][1..] == [] && Walk(m, []) == m;
    if key != "this" {
      assert GetPath(Obj(fields), key) == Walk(Obj(fields), [key]);
    }
  }

  lemma {:induction false} SplitKey(key: string)
    requires '.' !in key
    ensures SplitDots(key) == [key]
  {
    if key != "" {
      SplitKey(key[1..]);
      assert key == [key[0]] + key[1..];
    }
  }

  lemma {:induction false} SplitFirst(key: string, rest: string)
    requires '.' !in key
    ensures SplitDots(key + "." + rest) == [key] + SplitDots(rest)
  {
    var path := key + "." + rest;
    if key == "" {
      assert path[1..] == rest;
    } else {
      SplitFirst(key[1..], rest);
      assert path[1..] == key[1..] + "." + rest;
      assert key == [key[0]] + key[1..];
      assert ([key[1..]] + SplitDots(rest))[1..] == SplitDots(rest);
    }
  }

  // ---- what stands around a block

  /** A block's facts, each as its attribute was written or else the default. */
  function Laid(id: string, said: map<string, string>, html: string): RenderedBlock {
    RenderedBlock(id, if "page" in said then said["page"] else "1", if "y" in said then said["y"] else "0",
                  if "pt" in said then said["pt"] else "10", "bold" in said && said["bold"] == "true",
                  Trim(Collapse(StripTags(html))))
  }

  /** A block shows its body in a section tag with its id and facts, and is listed after the blocks inside it. */
  lemma BlockShows(id: string, attrs: seq<B.Attribute>, body: Nodes, sc: Scope)
    requires id != "" && '"' !in id && NoBrace(id) && WellFormed(body) && forall i | 0 <= i < |attrs| :: B.WellFormed(attrs[i])
    requires Meaning(body, sc).Ok?
    ensures var arg, inner := " " + ("\"" + id + "\"" + B.WrittenAll(attrs)), Meaning(body, sc).value;
            var b := Laid(id, B.Said(attrs), inner.html);
            SectionFrom("{{#block" + arg + "}}" + Print(body) + "{{/block}}", 0, sc) == Ok(Out(
              "<section data-block=\"" + b.id + "\" data-page=\"" + b.page + "\" data-y=\"" + b.y + "\" data-pt=\"" + b.pt + "\"" +
              (if b.bold then " class=\"bold\"" else "") + ">" + inner.html + "</section>",
              inner.blocks + [b]))
  {
    hide SectionFrom, Meaning, Print, WellFormed, WellFormedArg, NodeMeaning, Laid, B.WrittenAll, B.Said, B.WellFormed;
    var t := B.WrittenAll(attrs);
    var arg := " " + ("\"" + id + "\"" + t);
    var n, inner := Sect(Block, arg, body, NoElse), Meaning(body, sc).value;
    BlockMeans(id, attrs, body, sc);
    WrittenNoBrace(attrs);
    ArgumentWritten(id, t);
    OneNode(n, sc);
    SectText(Block, "{{#block", "{{/block}}", arg, body, NoElse);
    assert "{{#block" + arg + "}}" + Print(body) + "" == "{{#block" + arg + "}}" + Print(body);
    hide OpenTag;
    TagText(Laid(id, B.Said(attrs), inner.html));
  }

  lemma TagText(b: RenderedBlock)
    ensures OpenTag(b) ==
            "<section data-block=\"" + b.id + "\" data-page=\"" + b.page + "\" data-y=\"" + b.y + "\" data-pt=\"" + b.pt + "\"" +
            (if b.bold then " class=\"bold\"" else "") + ">"
  {
  }

  lemma BlockMeans(id: string, attrs: seq<B.Attribute>, body: Nodes, sc: Scope)
    requires id != "" && '"' !in id && forall i | 0 <= i < |attrs| :: B.WellFormed(attrs[i])
    requires Meaning(body, sc).Ok?
    ensures var arg, inner := " " + ("\"" + id + "\"" + B.WrittenAll(attrs)), Meaning(body, sc).value;
            var b := Laid(id, B.Said(attrs), inner.html);
            NodeMeaning(Sect(Block, arg, body, NoElse), sc) == Ok(Out(OpenTag(b) + inner.html + "</section>", inner.blocks + [b]))
  {
    hide Meaning, Attributes, B.WrittenAll, B.Said, B.WellFormed, StripTags, Collapse, Trim, BlockId, OpenTag;
    var t := B.WrittenAll(attrs);
    WrittenEnd(attrs);
    TrimmedArgument(id, t);
    B.BlockArgumentReads(id, attrs, Meaning(body, sc).value.html);
  }

  /** The argument may stand in a section's opening. */
  lemma ArgumentWritten(id: string, t: string)
    requires NoBrace(id) && NoBrace(t)
    ensures WellFormedArg(" " + ("\"" + id + "\"" + t))
  {
    hide IsSpace;
    QuoteIsNoSpace();
  }

  lemma {:induction false} WrittenNoBrace(attrs: seq<B.Attribute>)
    requires forall i | 0 <= i < |attrs| :: B.WellFormed(attrs[i])
    ensures NoBrace(B.WrittenAll(attrs))
  {
    if attrs != [] {
      WrittenNoBrace(attrs[1..]);
      assert B.WellFormed(attrs[0]);
      assert NoBrace(B.Written(attrs[0]));
    }
  }

  /** A block's argument is trimmed of the space in front of it. */
  lemma TrimmedArgument(id: string, t: string)
    requires t == "" || !IsSpace(t[|t| - 1])
    ensures var arg := "\"" + id + "\"" + t; Trim(" " + arg) == arg
  {
    hide *;
    var arg := "\"" + id + "\"" + t;
    QuoteIsNoSpace();
    assert arg[0] == '"';
    if t != "" {
      assert arg[|arg| - 1] == t[|t| - 1];
    } else {
      assert arg[|arg| - 1] == '"';
    }
    assert " " + arg + "" == " " + arg;
    TrimAround(" ", arg, "");
  }

  lemma QuoteIsNoSpace()
    ensures !IsSpace('"') && IsSpace(' ')
  {
  }

  lemma {:induction false} WrittenEnd(attrs: seq<B.Attribute>)
    requires forall i | 0 <= i < |attrs| :: B.WellFormed(attrs[i])
    ensures var t := B.WrittenAll(attrs); t == "" || !IsSpace(t[|t| - 1])
  {
    if attrs != [] {
      var rest := attrs[1..];
      WrittenEnd(rest);
      var w := B.Written(attrs[0]);
      assert B.WellFormed(attrs[0]);
      assert w != "" && B.WordChar(w[|w| - 1], true);
      WordIsNoSpace(w[|w| - 1]);
      assert B.WrittenAll(attrs) == " " + w + B.WrittenAll(rest);
    }
  }

  lemma WordIsNoSpace(c: char)
    requires B.WordChar(c, true)
    ensures !IsSpace(c)
  {
  }

  // ---- what a value is filled in as

  /**
   * The text of a value: nothing for none, a word for a boolean, a numeral that reads back as the number, a
   * text as it is, the texts of an array's items with commas between them, and one fixed text for an object.
   */
  lemma TextShows(v: Value)
    ensures var t := TextOf(v);
            match v
            case Undefined => t == ""
            case Null => t == ""
            case Bool(b) => t == if b then "true" else "false"
            case Num(n) => M.ReadCents(t) == n && IsNumeral(t)
            case Big(n) => M.ReadCents(t) == n && IsNumeral(t)
            case Str(s) => t == s
            case Arr(items) =>
              && (|items| == 0 ==> t == "")
              && (|items| == 1 ==> t == TextOf(items[0]))
              && (|items| > 1 ==> t == TextOf(items[0]) + "," + TextOf(Arr(items[1..])))
            case Obj(_) => t == "[object Object]"
  {
    match v
    case Num(n) => NumeralReads(n);
    case Big(n) => NumeralReads(n);
    case Arr(items) => ItemsJoined(items);
    case _ =>
  }

  lemma ItemsJoined(items: seq<Value>)
    ensures |items| == 0 ==> TextOf(Arr(items)) == ""
    ensures |items| == 1 ==> TextOf(Arr(items)) == TextOf(items[0])
    ensures |items| > 1 ==> TextOf(Arr(items)) == TextOf(items[0]) + "," + TextOf(Arr(items[1..]))
  {
    assert TextOf(Arr(items)) == JoinItems(items);
    if |items| > 1 { assert TextOf(Arr(items[1..])) == JoinItems(items[1..]); }
  }

  /** Digits with at most a minus sign in front, without leading zeros. */
  ghost predicate IsNumeral(t: string) {
    var ds := if t != "" && t[0] == '-' then t[1..] else t;
    ds != "" && (forall i | 0 <= i < |ds| :: '0' <= ds[i] <= '9') && (|ds| > 1 ==> ds[0] != '0')
  }

  lemma NumeralReads(n: int)
    ensures M.ReadCents(IntText(n)) == n && IsNumeral(IntText(n))
  {
    var a := if n < 0 then -n else n;
    NumeralChars(a);
    var s := M.Numeral(a);
    hide M.Numeral, M.DigitsIn, D.Value;
    M.DigitsInConcat("-", s);
    M.NoDigits("-");
    assert M.DigitsIn("-") + M.DigitsIn(s) == M.DigitsIn(s);
    assert ("-" + s)[1..] == s && ("-" + s)[0] == '-';
  }

  lemma NumeralChars(a: nat)
    ensures var s := M.Numeral(a);
            && s != "" && (forall i | 0 <= i < |s| :: '0' <= s[i] <= '9') && (|s| > 1 ==> s[0] != '0')
            && D.Value(M.DigitsIn(s)) == a
  {
    var ds := D.Digits(a);
    M.DigitsInChars(ds);
    D.DigitsValue(a);
    hide M.DigitsIn, D.Digits, D.Value;
    var s := M.Numeral(a);
    assert forall i | 0 <= i < |s| :: s[i] == M.DigitChar(ds[i]);
  }

  /** A path as it may stand in a value: no white space and no braces. */
  predicate PlainPath(path: string) {
    path != "" && path != "else" && path[0] != '#' && path[0] != '/' && NoBrace(path) && forall i | 0 <= i < |path| :: !IsSpace(path[i])
  }

  predicate Spaces(sp: string) { sp != "" && forall i | 0 <= i < |sp| :: IsSpace(sp[i]) }

  /** An inline value renders to what fills its slot. */
  lemma OneSlot(raw: bool, expr: string, sc: Scope)
    requires WellFormedExpr(expr)
    ensures SectionFrom(if raw then "{{{" + expr + "}}}" else "{{" + expr + "}}", 0, sc) == Ok(Out(Fill(SlotFor(raw, expr), sc), []))
  {
    hide SectionFrom, Fill, SlotFor, WellFormedExpr;
    OneNode(Inline(raw, expr), sc);
  }

  /** An argument is what stands between the white space in front of it and behind it. */
  lemma TrimAround(sp: string, s: string, sq: string)
    requires (forall i | 0 <= i < |sp| :: IsSpace(sp[i])) && (forall i | 0 <= i < |sq| :: IsSpace(sq[i]))
    requires s != "" && !IsSpace(s[0]) && !IsSpace(s[|s| - 1])
    ensures Trim(sp + s + sq) == s
  {
    hide TrimStart, TrimEnd, IsSpace;
    assert sp + s + sq == sp + (s + sq);
    StartSkipped(sp, s + sq);
    EndSkipped(s, sq);
  }

  lemma {:induction false} EndSkipped(s: string, sq: string)
    requires (forall i | 0 <= i < |sq| :: IsSpace(sq[i])) && s != "" && !IsSpace(s[|s| - 1])
    ensures TrimEnd(s + sq) == s
  {
    if sq == "" {
      assert s + sq == s;
    } else {
      EndSkipped(s, sq[..|sq| - 1]);
      assert (s + sq)[..|s + sq| - 1] == s + sq[..|sq| - 1];
    }
  }

  lemma TrimInside(s: string)
    requires s != "" && !IsSpace(s[0]) && !IsSpace(s[|s| - 1])
    ensures Trim(s) == s
  {
    hide Trim, IsSpace;
    assert "" + s + "" == s;
    TrimAround("", s, "");
  }

  /** Three braces give a value's text as it is; two give it escaped, by the four replacements one after the other. */
  lemma ValueShows(path: string, sc: Scope)
    requires PlainPath(path)
    ensures SectionFrom("{{{" + path + "}}}", 0, sc) == Ok(Out(TextOf(Lookup(sc.frames, path)), []))
    ensures SectionFrom("{{" + path + "}}", 0, sc) == Ok(Out(FourPasses(TextOf(Lookup(sc.frames, path))), []))
  {
    hide SectionFrom, TextOf, Lookup, FourPasses, EscapeHtml, MoneyText, Upper, Trim;
    OneSlot(true, path, sc);
    OneSlot(false, path, sc);
    TrimInside(path);
    EscapeIsFourPasses(TextOf(Lookup(sc.frames, path)));
    assert forall h :: HelperArg(path, h) == None;
  }

  const HELPERS := ["money", "date", "pct", "upper"]

  lemma HelperStart(k: nat)
    requires k < 4
    ensures HELPERS[k] != "" && !IsSpace(HELPERS[k][0]) && NoBrace(HELPERS[k])
  {
  }

  /** White space is no brace, and what is no white space ends no line. */
  lemma SpaceIsNot(sp: string, path: string)
    requires Spaces(sp) && PlainPath(path)
    ensures NoBrace(sp) && forall i | 0 <= i < |path| :: path[i] !in "\n\r\U{2028}\U{2029}"
  {
  }

  lemma HelperRead(k: nat, sp: string, path: string)
    requires k < 4 && Spaces(sp) && PlainPath(path)
    ensures var expr := HELPERS[k] + sp + path;
            && WellFormedExpr(expr) && Trim(expr) == expr && expr != "else"
            && forall j | 0 <= j < 4 :: HelperArg(expr, HELPERS[j]) == if j == k then Some(path) else None
  {
    hide Begins, TrimStart, Trim, IsSpace;
    var h, expr := HELPERS[k], HELPERS[k] + sp + path;
    HelperStart(k);
    SpaceIsNot(sp, path);
    assert expr == h + (sp + path);
    assert expr[0] == h[0] && expr[|expr| - 1] == path[|path| - 1] && expr[|h|] == sp[0];
    TrimInside(expr);
    StartSkipped(sp, path);
    assert expr[|h|..] == sp + path;
    forall j | 0 <= j < 4 ensures HelperArg(expr, HELPERS[j]) == if j == k then Some(path) else None {
      BeginsPrefix(expr, HELPERS[j]);
      if j == k {
        assert expr[..|h|] == h;
      } else if |HELPERS[j]| <= |expr| {
        assert expr[..|HELPERS[j]|][0] == h[0] != HELPERS[j][0];
      }
    }
    assert NoBrace(expr);
  }

  lemma {:induction false} StartSkipped(sp: string, path: string)
    requires (forall i | 0 <= i < |sp| :: IsSpace(sp[i])) && path != "" && !IsSpace(path[0])
    ensures TrimStart(sp + path) == path
  {
    if sp == "" {
      assert sp + path == path;
    } else {
      StartSkipped(sp[1..], path);
      assert (sp + path)[1..] == sp[1..] + path;
    }
  }

  /** `upper` escapes first and upper-cases then; `date` and `pct` stand as their formatters print them. */
  lemma HelperShows(sp: string, path: string, sc: Scope)
    requires Spaces(sp) && PlainPath(path)
    ensures var v := Lookup(sc.frames, path);
            && SectionFrom("{{" + ("upper" + sp + path) + "}}", 0, sc) == Ok(Out(Upper(FourPasses(TextOf(v)), sc.formats.upperChar), []))
            && SectionFrom("{{" + ("date" + sp + path) + "}}", 0, sc) == Ok(Out(sc.formats.longDate(v), []))
            && SectionFrom("{{" + ("pct" + sp + path) + "}}", 0, sc) == Ok(Out(sc.formats.pct(v), []))
  {
    hide SectionFrom, TextOf, Lookup, FourPasses, EscapeHtml, MoneyText, Upper, Trim, HelperArg, WellFormedExpr, Spaces, PlainPath;
    EscapeIsFourPasses(TextOf(Lookup(sc.frames, path)));
    forall k | 1 <= k < 4
      ensures SectionFrom("{{" + (HELPERS[k] + sp + path) + "}}", 0, sc) == Ok(Out(Fill(Slot(false, HELPERS[k] + sp + path, |HELPERS[k] + sp + path| + 4), sc), []))
    {
      HelperRead(k, sp, path);
      OneSlot(false, HELPERS[k] + sp + path, sc);
    }
    HelperRead(1, sp, path);
    HelperRead(2, sp, path);
    HelperRead(3, sp, path);
    assert HELPERS[0] == "money" && HELPERS[1] == "date" && HELPERS[2] == "pct" && HELPERS[3] == "upper";
  }

  /** `money` prints a number's cents and the cents a text of digits spells; anything else leaves nothing. */
  lemma MoneyShows(sp: string, path: string, sc: Scope)
    requires Spaces(sp) && PlainPath(path)
    ensures var shown := SectionFrom("{{" + ("money" + sp + path) + "}}", 0, sc);
            && shown.Ok? && shown.value.blocks == []
            && var t := shown.value.html;
               match Lookup(sc.frames, path)
               case Num(n) => t == M.Money(n)
               case Big(n) => t == M.Money(n)
               case Str(s) =>
                 var ds := if s != "" && s[0] == '-' then s[1..] else s;
                 t == if ds != "" && forall i | 0 <= i < |ds| :: '0' <= ds[i] <= '9' then M.Money(M.ReadCents(s)) else ""
               case Undefined => t == ""
               case Null => t == ""
               case Bool(_) => t == ""
               case Arr(_) => t == ""
               case Obj(_) => t == ""
  {
    hide SectionFrom, TextOf, Lookup, EscapeHtml, Upper, Trim, HelperArg, WellFormedExpr, Spaces, PlainPath;
    hide M.Money, M.ReadCents;
    HelperRead(0, sp, path);
    assert HELPERS[0] == "money";
    OneSlot(false, "money" + sp + path, sc);
    var v := Lookup(sc.frames, path);
    if v.Str? {
      BeginsPrefix(v.s, "-");
      assert v.s != "" ==> (v.s[..1] == "-" <==> v.s[0] == '-');
    }
  }
}
