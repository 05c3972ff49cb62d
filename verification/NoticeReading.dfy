/**
 * The notice text of a rendered template tree compared with what the template and its payload meant
 * (src/notices/render.ts:36, 55-60, 88-134).
 */
module NoticeReading {
  import opened Basics
  import opened TemplateScan
  import opened TemplateValues
  import opened TemplateEngine
  import opened TemplateTrees
  import opened NoticeText
  import opened RecoveredText
  import D = Decimal
  import M = Money

  // ---- the pieces of a rendered tree

  /** An upper-cased value is escaped first, and means the upper case of its text. */
  function ShoutedPiece(value: string, upperChar: char -> string): Piece {
    Shouted(value, Upper(EscapeHtml(value), upperChar), Upper(value, upperChar))
  }

  /** A formatted amount, date or percentage stands as it is; any other value is escaped. */
  function SlotPiece(slot: Slot, sc: Scope): Piece {
    if slot.raw then Lit(Fill(slot, sc))
    else if slot.expr == "else" then Lit("")
    else
      match HelperArg(slot.expr, "money")
      case Some(path) => Lit(MoneyText(Lookup(sc.frames, path)))
      case None =>
        match HelperArg(slot.expr, "date")
        case Some(path) => Lit(sc.formats.longDate(Lookup(sc.frames, path)))
        case None =>
          match HelperArg(slot.expr, "pct")
          case Some(path) => Lit(sc.formats.pct(Lookup(sc.frames, path)))
          case None =>
            match HelperArg(slot.expr, "upper")
            case Some(path) => ShoutedPiece(TextOf(Lookup(sc.frames, path)), sc.formats.upperChar)
            case None => Val(TextOf(Lookup(sc.frames, slot.expr)))
  }

  function PiecesOf(ns: Nodes, sc: Scope): seq<Piece>
    decreases ns, 0, 0
  {
    match ns
    case Nil => []
    case Cons(n, rest) => NodePieces(n, sc) + PiecesOf(rest, sc)
  }

  function NodePieces(n: Node, sc: Scope): seq<Piece>
    decreases n, 0, 0
  {
    match n
    case Text(s) => [Lit(s)]
    case Inline(raw, expr) => [SlotPiece(SlotFor(raw, expr), sc)]
    case Sect(tag, arg, body, els) =>
      var v := Lookup(sc.frames, Trim(arg));
      match tag
      case If => if Truthy(v) then PiecesOf(body, sc) else ElsePieces(els, sc)
      case Unless => if Truthy(v) then ElsePieces(els, sc) else PiecesOf(body, sc)
      case Each => if v.Arr? && v.items != [] then ItemsPieces(v.items, 0, body, sc) else ElsePieces(els, sc)
      case Block => [Emitted(BlockTag(Trim(arg)))] + PiecesOf(body, sc) + [Emitted(CLOSE_TAG)]
  }

  function ElsePieces(els: Else, sc: Scope): seq<Piece>
    decreases els, 0, 0
  {
    if els.NoElse? then [] else PiecesOf(els.nodes, sc)
  }

  function ItemsPieces(items: seq<Value>, k: nat, body: Nodes, sc: Scope): seq<Piece>
    requires k <= |items|
    decreases body, 1, |items| - k
  {
    if k == |items| then [] else PiecesOf(body, ItemScope(sc, items, k)) + ItemsPieces(items, k + 1, body, sc)
  }

  /** The opening tag of a block, which its content has no part in. */
  function BlockTag(arg: string): string {
    match BlockId(arg)
    case None => ""
    case Some(id) => OpenTag(LayOut(id, Attributes(arg[|id| + 2..]), ""))
  }

  /** Literal text without `<` and `&`, no raw values, and no `>` in a block's argument. */
  predicate Plain(ns: Nodes) {
    ns.Cons? ==> PlainNode(ns.head) && Plain(ns.tail)
  }

  predicate PlainNode(n: Node) {
    match n
    case Text(s) => CleanText(s)
    case Inline(raw, _) => !raw
    case Sect(tag, arg, body, els) => (tag == Block ==> '>' !in arg) && Plain(body) && (els.Else? ==> Plain(els.nodes))
  }

  /**
   * Upper-casing of characters: the small letters of ASCII become its capitals and its other characters stay;
   * any other character becomes characters beyond ASCII or capitals.
   */
  ghost predicate UpperCases(upperChar: char -> string) {
    && (forall c: char | 'a' <= c <= 'z' :: upperChar(c) == [(c as int - 32) as char])
    && (forall c: char | c as int < 128 && !IsLower(c) :: upperChar(c) == [c])
    && (forall c: char, d: char | c as int >= 128 && d in upperChar(c) :: d as int >= 128 || 'A' <= d <= 'Z')
  }

  /** Dates and percentages print neither `<` nor `&`. */
  ghost predicate PlainFormats(f: Formats) {
    (forall v: Value :: CleanText(f.longDate(v)) && CleanText(f.pct(v))) && UpperCases(f.upperChar)
  }

  // -- upper-cased values

  lemma UpperCons(c: char, s: string, upperChar: char -> string)
    ensures Upper([c] + s, upperChar) == upperChar(c) + Upper(s, upperChar)
  {
    assert ([c] + s)[1..] == s;
  }

  lemma {:induction false} UpperConcat(a: string, b: string, upperChar: char -> string)
    ensures Upper(a + b, upperChar) == Upper(a, upperChar) + Upper(b, upperChar)
  {
    hide Upper;
    if a == "" {
      NothingShouted(upperChar);
      assert a + b == b;
    } else {
      UpperConcat(a[1..], b, upperChar);
      assert a == [a[0]] + a[1..] && a + b == [a[0]] + (a[1..] + b);
      UpperCons(a[0], a[1..], upperChar);
      UpperCons(a[0], a[1..] + b, upperChar);
    }
  }

  /** The upper case of an entity. */
  function UpperEntity(k: nat): string
    requires k < 4
  {
    if k == 0 then "&AMP;" else if k == 1 then "&LT;" else if k == 2 then "&GT;" else "&QUOT;"
  }

  lemma {:induction false} UpperIs(s: string, t: string, upperChar: char -> string)
    requires |s| == |t| && forall i | 0 <= i < |s| :: upperChar(s[i]) == [t[i]]
    ensures Upper(s, upperChar) == t
  {
    if s != "" {
      UpperIs(s[1..], t[1..], upperChar);
      assert t == [t[0]] + t[1..];
    }
  }

  lemma EntityUpper(k: nat, upperChar: char -> string)
    requires k < 4 && UpperCases(upperChar)
    ensures Upper(Entity(k), upperChar) == UpperEntity(k)
  {
    hide Upper;
    UpperIs(Entity(k), UpperEntity(k), upperChar);
  }

  /** The upper case of one character: no small letter, and no special character unless it is that character. */
  lemma UpperOne(c: char, upperChar: char -> string)
    requires UpperCases(upperChar)
    ensures forall d: char | d in upperChar(c) :: !IsLower(d) && (IsSpecial(d) ==> d == c)
    ensures IsSpecial(c) ==> upperChar(c) == [c]
  {
  }

  lemma {:induction false} NoneCount(p: char -> bool, s: string)
    requires forall i | 0 <= i < |s| :: !p(s[i])
    ensures Count(p, s) == 0
  {
    if s != "" { NoneCount(p, s[1..]); }
  }

  lemma {:induction false} UpperHasNoSmall(s: string, upperChar: char -> string)
    requires UpperCases(upperChar)
    ensures forall d | d in Upper(s, upperChar) :: !IsLower(d)
  {
    hide UpperCases, IsLower;
    if s != "" {
      UpperOne(s[0], upperChar);
      UpperHasNoSmall(s[1..], upperChar);
    }
  }

  /** How one character of a value shows and is meant, upper-cased. */
  lemma ShoutedChar(c: char, upperChar: char -> string)
    requires UpperCases(upperChar)
    ensures var shown, meant := Upper(EscapeChar(c), upperChar), upperChar(c);
            && '<' !in shown && CapitalAmps(shown)
            && (if IsSpecial(c) then Count(IsSolid, shown) > Count(IsSolid, meant) else shown == meant)
  {
    if IsSpecial(c) {
      var k := Rank(c);
      EntityUpper(k, upperChar);
      SolidEntity(k);
      CountOne(IsSolid, c);
    } else {
      assert [c][1..] == "" && upperChar(c) + "" == upperChar(c);
      UpperOne(c, upperChar);
      assert IsSpecial('<') && IsSpecial('&');
      assert '<' !in upperChar(c) && '&' !in upperChar(c);
    }
  }

  lemma SolidEntity(k: nat)
    requires k < 4
    ensures Count(IsSolid, UpperEntity(k)) > 1 && CapitalAmps(UpperEntity(k)) && '<' !in UpperEntity(k)
  {
    AllCount(IsSolid, UpperEntity(k));
  }

  lemma CapitalConcat(a: string, b: string)
    requires CapitalAmps(a) && CapitalAmps(b)
    ensures CapitalAmps(a + b)
  {
  }

  lemma {:induction false} ShoutedShows(v: string, upperChar: char -> string)
    requires UpperCases(upperChar)
    ensures var shown, meant := Upper(EscapeHtml(v), upperChar), Upper(v, upperChar);
            && '<' !in shown && CapitalAmps(shown)
            && Count(IsSolid, shown) >= Count(IsSolid, meant)
            && (if NoSpecial(v) then shown == meant else Count(IsSolid, shown) > Count(IsSolid, meant))
  {
    hide UpperCases, CapitalAmps, Count, EscapeChar, IsSolid, IsSpecial;
    if v == "" {
      NothingShouted(upperChar);
    } else {
      var c, rest := v[0], v[1..];
      ShoutedShows(rest, upperChar);
      ShoutedChar(c, upperChar);
      UpperConcat(EscapeChar(c), EscapeHtml(rest), upperChar);
      CapitalConcat(Upper(EscapeChar(c), upperChar), Upper(EscapeHtml(rest), upperChar));
      CountConcat(IsSolid, Upper(EscapeChar(c), upperChar), Upper(EscapeHtml(rest), upperChar));
      CountConcat(IsSolid, upperChar(c), Upper(rest, upperChar));
      SpecialCons(v);
    }
  }

  lemma SpecialCons(s: string)
    requires s != ""
    ensures NoSpecial(s) <==> !IsSpecial(s[0]) && NoSpecial(s[1..])
  {
    hide IsSpecial;
    if NoSpecial(s[1..]) {
      forall i | 0 < i < |s| ensures s[i] == s[1..][i - 1] {
      }
    }
  }

  lemma NothingShouted(upperChar: char -> string)
    ensures Upper(EscapeHtml(""), upperChar) == "" == Upper("", upperChar) && CapitalAmps("") && NoSpecial("")
  {
  }

  lemma ShoutedClean(v: string, upperChar: char -> string)
    requires UpperCases(upperChar)
    ensures CleanPiece(ShoutedPiece(v, upperChar))
  {
    hide UpperCases, CapitalAmps, Count, IsSolid, IsLower, NoSpecial, Upper, EscapeHtml;
    ShoutedShows(v, upperChar);
    UpperHasNoSmall(EscapeHtml(v), upperChar);
    UpperHasNoSmall(v, upperChar);
    NoneCount(IsLower, Upper(EscapeHtml(v), upperChar));
    NoneCount(IsLower, Upper(v, upperChar));
  }

  /**
   * The text of a single upper-cased value: up to white space it reads as the value's upper case exactly when
   * the value holds none of `&`, `<`, `>` and the double quote.
   */
  lemma UpperReads(v: string, upperChar: char -> string)
    requires UpperCases(upperChar)
    ensures PlainText(Upper(EscapeHtml(v), upperChar)) == Trim(Collapse(Upper(v, upperChar))) <==> NoSpecial(v)
  {
    hide UpperCases, PlainText, Trim, Collapse, NoSpecial, Upper, EscapeHtml, Count, CleanPiece, Spells;
    var p := ShoutedPiece(v, upperChar);
    ShoutedClean(v, upperChar);
    OneClean(p);
    HtmlOne(p);
    TextExact([p]);
    OneMeant(p);
    UpperHasNoSmall(v, upperChar);
    NoneCount(IsLower, Upper(v, upperChar));
    UndoneExact(Upper(v, upperChar));
  }

  lemma OneMeant(p: Piece)
    requires p.Shouted?
    ensures Intended([p]) == p.meant && (ShoutsPlain([p]) <==> NoSpecial(p.value))
  {
    hide NoSpecial;
    assert [p][1..] == [] && p.meant + "" == p.meant;
  }

  lemma HtmlCons(p: Piece, ps: seq<Piece>)
    ensures HtmlOf([p] + ps) == PieceHtml(p) + HtmlOf(ps)
  {
    hide PieceHtml;
    assert ([p] + ps)[1..] == ps;
  }

  lemma {:induction false} HtmlConcat(a: seq<Piece>, b: seq<Piece>)
    ensures HtmlOf(a + b) == HtmlOf(a) + HtmlOf(b)
  {
    hide HtmlOf, PieceHtml;
    if a == [] {
      NoPieces();
      assert a + b == b;
    } else {
      HtmlConcat(a[1..], b);
      assert a == [a[0]] + a[1..] && a + b == [a[0]] + (a[1..] + b);
      HtmlCons(a[0], a[1..]);
      HtmlCons(a[0], a[1..] + b);
    }
  }

  lemma HtmlOne(p: Piece)
    ensures HtmlOf([p]) == PieceHtml(p)
  {
    hide PieceHtml;
    assert [p][1..] == [];
  }

  lemma CleanConcat(a: seq<Piece>, b: seq<Piece>)
    requires Clean(a) && Clean(b)
    ensures Clean(a + b)
  {
    hide CleanPiece;
  }

  // -- amounts

  predicate AmountText(s: string) { forall i | 0 <= i < |s| :: M.IsDigit(s[i]) || s[i] in "-$,." }

  lemma {:induction false} GroupedText(s: string)
    requires AmountText(s)
    ensures AmountText(M.Grouped(s))
  {
    if s != "" { GroupedText(s[1..]); }
  }

  lemma NumeralText(n: nat)
    ensures AmountText(M.Numeral(n))
  {
    hide D.Digits;
  }

  lemma MoneyClean(c: int)
    ensures CleanText(M.Money(c))
  {
    hide M.Grouped, M.Numeral;
    var a := if c < 0 then -c else c;
    NumeralText(a / 100);
    GroupedText(M.Numeral(a / 100));
    NumeralText(a % 100);
  }

  lemma SlotClean(slot: Slot, sc: Scope)
    requires PlainFormats(sc.formats) && !slot.raw
    ensures CleanPiece(SlotPiece(slot, sc))
  {
    hide HelperArg, M.Money, CleanText, TextOf, Lookup, UpperCases, CapitalAmps, Count, NoSpecial, Upper, EscapeHtml;
    if HelperArg(slot.expr, "upper").Some? { ShoutedClean(TextOf(Lookup(sc.frames, HelperArg(slot.expr, "upper").value)), sc.formats.upperChar); }
    forall c ensures CleanText(M.Money(c)) { MoneyClean(c); }
    NothingClean();
  }

  lemma NothingClean()
    ensures CleanText("")
  {
  }

  lemma SlotHtml(slot: Slot, sc: Scope)
    ensures HtmlOf([SlotPiece(slot, sc)]) == Fill(slot, sc)
  {
    hide HtmlOf, HelperArg, MoneyText, Lookup, TextOf, EscapeHtml;
    HtmlOne(SlotPiece(slot, sc));
  }

  // -- block tags

  ghost predicate NoGt(m: map<string, string>) { forall k | k in m :: '>' !in m[k] }

  lemma UnionNoGt(a: map<string, string>, b: map<string, string>)
    requires NoGt(a) && NoGt(b)
    ensures NoGt(a + b)
  {
  }

  lemma NextNoGt(s: string)
    requires s != "" && '>' !in s
    ensures var f := NextAttribute(s); f.value.Some? ==> '>' !in f.value.value
  {
    hide WordLen;
  }

  lemma {:induction false} AttributesNoGt(s: string)
    requires '>' !in s
    ensures NoGt(Attributes(s))
    decreases |s|
  {
    hide NextAttribute, NoGt;
    NoAttributes();
    if s != "" {
      var f := NextAttribute(s);
      NextNoGt(s);
      AttributesNoGt(s[f.next..]);
      var one := if f.value.Some? then map[f.name := f.value.value] else map[];
      if f.value.Some? { OneNoGt(f.name, f.value.value); }
      UnionNoGt(one, Attributes(s[f.next..]));
    }
  }

  lemma NoAttributes()
    ensures NoGt(map[]) && NoGt(Attributes(""))
  {
  }

  lemma OneNoGt(k: string, v: string)
    requires '>' !in v
    ensures NoGt(map[k := v])
  {
  }

  lemma BlockTagWhole(arg: string)
    requires BlockId(arg).Some? && '>' !in arg
    ensures WholeTag(BlockTag(arg))
  {
    hide Attributes, StripTags, Collapse, Trim;
    var id := BlockId(arg).value;
    AttributesNoGt(arg[|id| + 2..]);
    IdNoGt(arg);
    LaidOutWhole(LayOut(id, Attributes(arg[|id| + 2..]), ""));
  }

  lemma IdNoGt(arg: string)
    requires BlockId(arg).Some? && '>' !in arg
    ensures '>' !in BlockId(arg).value
  {
    hide IndexOf;
  }

  lemma ClosedTag(part: string)
    requires |part| > 1 && part[0] == '<' && '>' !in part
    ensures WholeTag(part + ">")
  {
    var t := part + ">";
    assert t[1..|t| - 1] == part[1..];
  }

  lemma LaidOutWhole(b: RenderedBlock)
    requires '>' !in b.id && '>' !in b.page && '>' !in b.y && '>' !in b.pt
    ensures WholeTag(OpenTag(b))
  {
    hide WholeTag;
    var bold := if b.bold then " class=\"bold\"" else "";
    var part := "<section data-block=\"" + b.id + "\" data-page=\"" + b.page + "\" data-y=\"" + b.y + "\" data-pt=\"" + b.pt + "\"" + bold;
    assert part[0] == "<section data-block=\""[0];
    ClosedTag(part);
  }

  lemma BlockTagIs(arg: string, id: string, inner: Out)
    requires BlockId(arg) == Some(id)
    ensures Wrap(arg, id, inner).html == BlockTag(arg) + inner.html + CLOSE_TAG
  {
    hide Attributes, StripTags, Collapse, Trim;
  }

  lemma CloseTagWhole()
    ensures WholeTag(CLOSE_TAG)
  {
  }

  // -- trees

  lemma {:induction false} TreePieces(ns: Nodes, sc: Scope)
    requires Plain(ns) && PlainFormats(sc.formats) && Meaning(ns, sc).Ok?
    ensures Clean(PiecesOf(ns, sc)) && HtmlOf(PiecesOf(ns, sc)) == Meaning(ns, sc).value.html
    decreases ns, 0, 0
  {
    hide NodeMeaning, NodePieces, Clean, HtmlOf, PlainNode, PlainFormats;
    match ns
    case Nil => NoPieces();
    case Cons(n, rest) =>
      NodeTreePieces(n, sc);
      TreePieces(rest, sc);
      CleanConcat(NodePieces(n, sc), PiecesOf(rest, sc));
      HtmlConcat(NodePieces(n, sc), PiecesOf(rest, sc));
  }

  lemma NoPieces()
    ensures Clean([]) && HtmlOf([]) == ""
  {
  }

  lemma {:induction false} NodeTreePieces(n: Node, sc: Scope)
    requires PlainNode(n) && PlainFormats(sc.formats) && NodeMeaning(n, sc).Ok?
    ensures Clean(NodePieces(n, sc)) && HtmlOf(NodePieces(n, sc)) == NodeMeaning(n, sc).value.html
    decreases n, 0, 0
  {
    hide Fill, SlotPiece, Clean, HtmlOf, Wrap, PlainFormats, Lookup, Truthy, BlockId, BlockTag, Trim, Plain, CleanText, HelperArg, PiecesOf, Meaning, ItemsMeaning, ItemsPieces;
    match n
    case Text(s) => LitPiece(s);
    case Inline(raw, expr) =>
      SlotClean(SlotFor(raw, expr), sc);
      SlotHtml(SlotFor(raw, expr), sc);
      OneClean(SlotPiece(SlotFor(raw, expr), sc));
    case Sect(tag, arg, body, els) =>
      var v := Lookup(sc.frames, Trim(arg));
      NoPieces();
      if tag == Each && v.Arr? && v.items != [] {
        ItemsTreePieces(v.items, 0, body, sc);
      } else if tag == Block {
        TreePieces(body, sc);
        BlockPieces(arg, Meaning(body, sc).value, PiecesOf(body, sc));
      } else if tag != Each && (tag == If) == Truthy(v) {
        TreePieces(body, sc);
      } else if els.Else? {
        TreePieces(els.nodes, sc);
      }
  }

  lemma LitPiece(s: string)
    requires CleanText(s)
    ensures Clean([Lit(s)]) && HtmlOf([Lit(s)]) == s
  {
    HtmlOne(Lit(s));
  }

  lemma OneClean(p: Piece)
    requires CleanPiece(p)
    ensures Clean([p])
  {
  }

  lemma {:induction false} TrimKeepsOut(s: string, c: char)
    requires c !in s
    ensures c !in Trim(s)
  {
    StartKeepsOut(s, c);
    EndKeepsOut(TrimStart(s), c);
  }

  lemma {:induction false} StartKeepsOut(s: string, c: char)
    requires c !in s
    ensures c !in TrimStart(s)
  {
    hide IsSpace;
    if s != "" { StartKeepsOut(s[1..], c); }
  }

  lemma {:induction false} EndKeepsOut(s: string, c: char)
    requires c !in s
    ensures c !in TrimEnd(s)
  {
    hide IsSpace;
    if s != "" { EndKeepsOut(s[..|s| - 1], c); }
  }

  lemma BlockPieces(arg: string, inner: Out, ps: seq<Piece>)
    requires BlockId(Trim(arg)).Some? && '>' !in arg && Clean(ps) && HtmlOf(ps) == inner.html
    ensures var all := [Emitted(BlockTag(Trim(arg)))] + ps + [Emitted(CLOSE_TAG)];
            Clean(all) && HtmlOf(all) == Wrap(Trim(arg), BlockId(Trim(arg)).value, inner).html
  {
    hide Trim, BlockId, BlockTag, Wrap, HtmlOf, WholeTag;
    var t := BlockTag(Trim(arg));
    TrimKeepsOut(arg, '>');
    BlockTagWhole(Trim(arg));
    CloseTagWhole();
    BlockTagIs(Trim(arg), BlockId(Trim(arg)).value, inner);
    HtmlOne(Emitted(t));
    HtmlOne(Emitted(CLOSE_TAG));
    HtmlConcat([Emitted(t)], ps);
    HtmlConcat([Emitted(t)] + ps, [Emitted(CLOSE_TAG)]);
  }

  lemma {:induction false} ItemsTreePieces(items: seq<Value>, k: nat, body: Nodes, sc: Scope)
    requires k <= |items| && Plain(body) && PlainFormats(sc.formats) && ItemsMeaning(items, k, body, sc).Ok?
    ensures Clean(ItemsPieces(items, k, body, sc)) && HtmlOf(ItemsPieces(items, k, body, sc)) == ItemsMeaning(items, k, body, sc).value.html
    decreases body, 1, |items| - k
  {
    hide Clean, HtmlOf, Plain, PlainFormats, PiecesOf, Meaning;
    if k == |items| {
      NoPieces();
    } else {
      TreePieces(body, ItemScope(sc, items, k));
      ItemsTreePieces(items, k + 1, body, sc);
      CleanConcat(PiecesOf(body, ItemScope(sc, items, k)), ItemsPieces(items, k + 1, body, sc));
      HtmlConcat(PiecesOf(body, ItemScope(sc, items, k)), ItemsPieces(items, k + 1, body, sc));
    }
  }

  /**
   * For every plain template and every payload: the html is the template's pieces, stripping removes the
   * tags of its blocks and nothing a value brought in, and, up to white space, the notice's text is the
   * intended one exactly when that spells none of `&lt;`, `&gt;`, `&quot;` and no upper-cased value holds a
   * character that is escaped.
   */
  lemma NoticeReads(ns: Nodes, payload: Value, formats: Formats)
    requires WellFormed(ns) && Plain(ns) && PlainFormats(formats)
    requires NoticeText.Render(Print(ns), payload, formats).Ok?
    ensures var n := NoticeText.Render(Print(ns), payload, formats).value;
            var ps := PiecesOf(ns, Scope([Frame(payload, None)], formats));
            && n.html == HtmlOf(ps)
            && StripTags(n.html) == WithoutTags(ps)
            && (n.text == Trim(Collapse(Intended(ps))) <==> !Spells(Intended(ps)) && ShoutsPlain(ps))
  {
    hide SectionFrom, Meaning, WellFormed, Plain, PlainFormats, Clean, HtmlOf, WithoutTags, Intended, Spells, StripTags, PlainText, Trim, Collapse, PiecesOf, Print, ShoutsPlain;
    var sc := Scope([Frame(payload, None)], formats);
    SourceMeaning(ns, sc);
    TreePieces(ns, sc);
    var ps := PiecesOf(ns, sc);
    TagsStripped(ps);
    TextExact(ps);
  }

  /** Upper-casing comes after escaping, so the entities it makes are never decoded: `{{upper x}}` of `a&b` does not read `A&B`. */
  lemma UpperNotDecoded(sc: Scope)
    requires Lookup(sc.frames, "x") == Str("a&b") && UpperCases(sc.formats.upperChar)
    ensures PlainText(Fill(Slot(false, "upper x", 11), sc)) != Trim(Collapse(Upper("a&b", sc.formats.upperChar)))
  {
    hide Lookup, PlainText, Trim, Collapse, HelperArg, EscapeHtml, MoneyText, Upper, UpperCases;
    UpperSlot();
    UpperReads("a&b", sc.formats.upperChar);
    assert IsSpecial("a&b"[1]);
  }

  lemma UpperSlot()
    ensures HelperArg("upper x", "money") == None && HelperArg("upper x", "date") == None && HelperArg("upper x", "pct") == None
    ensures HelperArg("upper x", "upper") == Some("x")
  {
    var e := "upper x";
    BeginsPrefix(e, "money");
    BeginsPrefix(e, "date");
    BeginsPrefix(e, "pct");
    BeginsPrefix(e, "upper");
    assert e[..5] == "upper" && e[..4][0] == 'u' && e[..3][0] == 'u';
    assert e[5..] == " x" && " x"[1..] == "x";
  }
}
