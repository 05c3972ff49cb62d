/**
 * Template trees, their text, and their direct meaning.  The theorem at the end says that the
 * index-juggling renderer of src/notices/render.ts computes the meaning of the tree it was printed from.
 */
module TemplateTrees {
  import opened Basics
  import opened TemplateScan
  import opened TemplateValues
  import opened TemplateEngine

  /** Literal text, an inline value, or a section; `arg` and `expr` are kept as written, with their white space. */
  datatype Node =
    | Text(s: string)
    | Inline(raw: bool, expr: string)
    | Sect(tag: Tag, arg: string, body: Nodes, els: Else)

  datatype Nodes = Nil | Cons(head: Node, tail: Nodes)

  datatype Else = NoElse | Else(nodes: Nodes)

  // ---- printing

  function PrintNode(n: Node): string {
    match n
    case Text(s) => s
    case Inline(raw, expr) => if raw then "{{{" + expr + "}}}" else "{{" + expr + "}}"
    case Sect(tag, arg, body, els) => OpenText(tag) + (arg + "}}") + Print(body) + PrintElse(els) + CloseText(tag)
  }

  function Print(ns: Nodes): string {
    match ns
    case Nil => ""
    case Cons(n, rest) => PrintNode(n) + Print(rest)
  }

  function PrintElse(els: Else): string {
    match els
    case NoElse => ""
    case Else(ns) => ELSE + Print(ns)
  }

  // ---- what can be printed and read back: text may hold single braces, but no "{{" and no brace at its end

  predicate NoBrace(s: string) { forall i | 0 <= i < |s| :: s[i] != '{' && s[i] != '}' }

  predicate WellFormedText(s: string) {
    forall i | 0 <= i < |s| && s[i] == '{' :: i + 1 < |s| && s[i + 1] != '{'
  }

  predicate WellFormedExpr(c: string) {
    c != "" && NoBrace(c) && c[0] != '#' && c[0] != '/' && c != "else"
  }

  predicate WellFormedArg(a: string) {
    a != "" && IsSpace(a[0]) && NoBrace(a)
  }

  predicate WellFormedNode(n: Node) {
    match n
    case Text(s) => WellFormedText(s)
    case Inline(_, expr) => WellFormedExpr(expr)
    case Sect(_, arg, body, els) => WellFormedArg(arg) && WellFormed(body) && (els.Else? ==> WellFormed(els.nodes))
  }

  predicate WellFormed(ns: Nodes) {
    ns.Cons? ==> WellFormedNode(ns.head) && WellFormed(ns.tail)
  }

  // ---- the direct meaning

  function Meaning(ns: Nodes, sc: Scope): Rendering
    decreases ns, 0, 0
  {
    match ns
    case Nil => Ok(NOTHING)
    case Cons(n, rest) =>
      var first := NodeMeaning(n, sc);
      if first.Err? then first else Then(first.value, Meaning(rest, sc))
  }

  function SlotFor(raw: bool, expr: string): Slot {
    if raw then Slot(true, RawExpr(expr), |expr| + 6) else Slot(false, Trim(expr), |expr| + 4)
  }

  /**
   * A section shows its body or its else; an `each` its body once per item, or the else when there is
   * none; a block wraps its body, after the blocks inside it, and ignores an else.
   */
  function NodeMeaning(n: Node, sc: Scope): Rendering
    decreases n, 0, 0
  {
    match n
    case Text(s) => Ok(Out(s, []))
    case Inline(raw, expr) => Ok(Out(Fill(SlotFor(raw, expr), sc), []))
    case Sect(tag, arg, body, els) =>
      var v := Lookup(sc.frames, Trim(arg));
      match tag
      case If => if Truthy(v) then Meaning(body, sc) else ElseMeaning(els, sc)
      case Unless => if Truthy(v) then ElseMeaning(els, sc) else Meaning(body, sc)
      case Each => if v.Arr? && v.items != [] then ItemsMeaning(v.items, 0, body, sc) else ElseMeaning(els, sc)
      case Block =>
        var id := BlockId(Trim(arg));
        if id.None? then Err(BlockNeedsId(Trim(arg)))
        else
          var inner := Meaning(body, sc);
          if inner.Err? then inner else Ok(Wrap(Trim(arg), id.value, inner.value))
  }

  function ElseMeaning(els: Else, sc: Scope): Rendering
    decreases els, 0, 0
  {
    if els.NoElse? then Ok(NOTHING) else Meaning(els.nodes, sc)
  }

  function ItemsMeaning(items: seq<Value>, k: nat, body: Nodes, sc: Scope): Rendering
    requires k <= |items|
    decreases body, 1, |items| - k
  {
    if k == |items| then Ok(NOTHING)
    else
      var first := Meaning(body, ItemScope(sc, items, k));
      if first.Err? then first else Then(first.value, ItemsMeaning(items, k + 1, body, sc))
  }

  // ---- finding printed text inside a source

  /** `p` stands at position `i` of `src`. */
  predicate At(src: string, i: nat, p: string) {
    i + |p| <= |src| && src[i..i + |p|] == p
  }

  lemma AtSplit(src: string, i: nat, a: string, b: string)
    ensures At(src, i, a + b) <==> At(src, i, a) && At(src, i + |a|, b)
  {
    if i + |a| + |b| <= |src| {
      assert src[i..i + |a + b|] == src[i..i + |a|] + src[i + |a|..i + |a| + |b|];
      assert (a + b)[..|a|] == a && (a + b)[|a|..] == b;
      if src[i..i + |a + b|] == a + b {
        assert src[i..i + |a|] == (a + b)[..|a|];
        assert src[i + |a|..i + |a| + |b|] == (a + b)[|a|..];
      }
    }
  }

  lemma AtChar(src: string, i: nat, p: string, k: nat)
    requires At(src, i, p) && k < |p|
    ensures i + k < |src| && src[i + k] == p[k]
  {
    assert src[i..i + |p|][k] == p[k];
  }

  lemma {:induction false} BeginsPrefix(r: string, p: string)
    ensures Begins(r, p) <==> |p| <= |r| && r[..|p|] == p
  {
    if p != "" && r != "" {
      BeginsPrefix(r[1..], p[1..]);
      if |p| <= |r| {
        assert r[..|p|] == [r[0]] + r[1..][..|p| - 1];
        assert p == [p[0]] + p[1..];
        if r[..|p|] == p {
          assert r[1..][..|p| - 1] == p[1..];
        }
      }
    }
  }

  lemma BeginsAt(src: string, i: nat, p: string)
    requires i <= |src|
    ensures Begins(src[i..], p) <==> At(src, i, p)
  {
    BeginsPrefix(src[i..], p);
    if i + |p| <= |src| {
      assert src[i..][..|p|] == src[i..i + |p|];
    }
  }

  lemma TwoBracesAt(src: string, i: nat, p: string)
    requires At(src, i, p) && |p| >= 2 && p[0] == '{' && p[1] == '{'
    ensures i + 1 < |src| && src[i] == '{' && src[i + 1] == '{'
  {
    AtChar(src, i, p, 0);
    AtChar(src, i, p, 1);
  }

  /** Nothing is recognised where no two braces stand. */
  lemma NothingWithoutBraces(src: string, i: nat)
    requires i <= |src|
    requires i + 1 < |src| ==> src[i] != '{' || src[i + 1] != '{'
    ensures MarkOf(src[i..]) == None && OpenOf(src[i..]) == None && SlotOf(src[i..]) == None
  {
    forall p: string | |p| >= 2 && p[0] == '{' && p[1] == '{' ensures !Begins(src[i..], p) {
      BeginsAt(src, i, p);
      if At(src, i, p) { TwoBracesAt(src, i, p); }
    }
  }

  lemma BracesWithoutMark(src: string, i: nat)
    requires At(src, i, "{{") && !At(src, i, "{{#") && !At(src, i, "{{/") && !At(src, i, ELSE)
    ensures i <= |src|
    ensures MarkOf(src[i..]) == None && OpenOf(src[i..]) == None
  {
    BeginsAt(src, i, "{{#");
    BeginsAt(src, i, "{{/");
    BeginsAt(src, i, ELSE);
  }

  /** No mark and no opening starts in `src[i..j]`. */
  ghost predicate Quiet(src: string, i: nat, j: nat) {
    i <= j <= |src| && forall k | i <= k < j :: MarkOf(src[k..]) == None && OpenOf(src[k..]) == None
  }

  lemma {:induction false} SkipQuiet(src: string, i: nat, j: nat)
    requires Quiet(src, i, j)
    ensures NextMark(src, i) == NextMark(src, j) && FindOpen(src, i) == FindOpen(src, j)
    ensures Marks(src, i) == Marks(src, j)
    decreases j - i
  {
    if i < j {
      assert MarkOf(src[i..]) == None && OpenOf(src[i..]) == None;
      SkipQuiet(src, i + 1, j);
    }
  }

  lemma TextQuiet(src: string, i: nat, s: string)
    requires At(src, i, s) && WellFormedText(s)
    ensures Quiet(src, i, i + |s|)
    ensures forall k | i <= k < i + |s| :: SlotOf(src[k..]) == None
  {
    forall k | i <= k < i + |s|
      ensures MarkOf(src[k..]) == None && OpenOf(src[k..]) == None && SlotOf(src[k..]) == None
    {
      AtChar(src, i, s, k - i);
      if s[k - i] == '{' { AtChar(src, i, s, k - i + 1); }
      NothingWithoutBraces(src, k);
    }
  }

  /** A span without opening braces is well-formed text. */
  lemma NoBraceQuiet(src: string, i: nat, s: string)
    requires At(src, i, s) && forall k | 0 <= k < |s| :: s[k] != '{'
    ensures Quiet(src, i, i + |s|)
  {
    TextQuiet(src, i, s);
  }

  /** Two texts that differ at an index they share cannot stand at one position. */
  lemma Differs(src: string, i: nat, p: string, q: string, k: nat)
    requires At(src, i, p) && k < |p| && k < |q| && p[k] != q[k]
    ensures !At(src, i, q)
  {
    AtChar(src, i, p, k);
    if At(src, i, q) { AtChar(src, i, q, k); }
  }

  lemma DiffersSomewhere(a: string, b: string)
    requires |a| == |b|
    ensures a == b || exists k | 0 <= k < |a| :: a[k] != b[k]
  {
    if forall k | 0 <= k < |a| :: a[k] == b[k] { assert a == b; }
  }

  lemma ExprIsNotElse(src: string, i: nat, expr: string)
    requires At(src, i, "{{" + expr + "}}") && WellFormedExpr(expr)
    ensures !At(src, i, ELSE)
  {
    var p, n := "{{" + expr + "}}", |expr|;
    if n < 4 {
      Differs(src, i, p, ELSE, 2 + n);
    } else if n > 4 {
      Differs(src, i, p, ELSE, 6);
    } else {
      DiffersSomewhere(expr, "else");
      var k :| 0 <= k < 4 && expr[k] != "else"[k];
      Differs(src, i, p, ELSE, 2 + k);
    }
  }

  /** A span in which no two braces meet is quiet. */
  lemma LoneBracesQuiet(src: string, i: nat, s: string)
    requires At(src, i, s) && s != "" && s[|s| - 1] != '{'
    requires forall k | 0 <= k < |s| - 1 :: s[k] != '{' || s[k + 1] != '{'
    ensures Quiet(src, i, i + |s|)
  {
    TextQuiet(src, i, s);
  }

  lemma QuietCons(src: string, i: nat, j: nat)
    requires i < j && Quiet(src, i + 1, j)
    requires MarkOf(src[i..]) == None && OpenOf(src[i..]) == None
    ensures Quiet(src, i, j)
  {
  }

  lemma PlainInlineQuiet(src: string, i: nat, expr: string)
    requires At(src, i, "{{" + expr + "}}") && WellFormedExpr(expr)
    ensures Quiet(src, i, i + |expr| + 4)
  {
    hide MarkOf, OpenOf, Quiet, At;
    var p, tail := "{{" + expr + "}}", "{" + expr + "}}";
    assert p == "{" + tail && p == "{{" + (expr + "}}");
    AtSplit(src, i, "{", tail);
    AtSplit(src, i, "{{", expr + "}}");
    Differs(src, i, p, "{{#", 2);
    Differs(src, i, p, "{{/", 2);
    ExprIsNotElse(src, i, expr);
    BracesWithoutMark(src, i);
    LoneBracesQuiet(src, i + 1, tail);
    QuietCons(src, i, i + |p|);
  }

  lemma RawInlineQuiet(src: string, i: nat, expr: string)
    requires At(src, i, "{{{" + expr + "}}}") && WellFormedExpr(expr)
    ensures Quiet(src, i, i + |expr| + 6)
  {
    hide MarkOf, OpenOf, At;
    var p, inner := "{{{" + expr + "}}}", "{{" + expr + "}}";
    assert p == "{" + inner + "}";
    AtSplit(src, i, "{" + inner, "}");
    AtSplit(src, i, "{", inner);
    PlainInlineQuiet(src, i + 1, expr);
    NoBraceQuiet(src, i + |inner| + 1, "}");
    assert p == "{{" + ("{" + expr + "}}}");
    AtSplit(src, i, "{{", "{" + expr + "}}}");
    Differs(src, i, p, "{{#", 2);
    Differs(src, i, p, "{{/", 2);
    Differs(src, i, p, ELSE, 2);
    BracesWithoutMark(src, i);
  }

  lemma InlineQuiet(src: string, i: nat, n: Node)
    requires n.Inline? && At(src, i, PrintNode(n)) && WellFormedNode(n)
    ensures Quiet(src, i, i + |PrintNode(n)|)
  {
    if n.raw { RawInlineQuiet(src, i, n.expr); } else { PlainInlineQuiet(src, i, n.expr); }
  }

  lemma PlainQuiet(src: string, i: nat, n: Node)
    requires !n.Sect? && At(src, i, PrintNode(n)) && WellFormedNode(n)
    ensures Quiet(src, i, i + |PrintNode(n)|)
  {
    if n.Text? { TextQuiet(src, i, n.s); } else { InlineQuiet(src, i, n); }
  }

  // ---- recognising printed tags

  lemma TagAtName(r: string, t: Tag)
    requires Begins(r, TagName(t))
    ensures TagAt(r) == Some(t)
  {
    forall u: Tag | Begins(r, TagName(u)) ensures u == t {
      BeginsPrefix(r, TagName(u));
      BeginsPrefix(r, TagName(t));
      assert r[..|TagName(u)|][0] == TagName(u)[0];
      assert r[..|TagName(t)|][0] == TagName(t)[0];
    }
  }

  lemma FirstBraceAt(src: string, i: nat, a: string)
    requires At(src, i, a + "}}") && NoBrace(a)
    ensures FirstBrace(src[i..]) == |a|
  {
    var r := src[i..];
    forall k | 0 <= k <= |a| ensures r[k] == (a + "}}")[k] {
      AtChar(src, i, a + "}}", k);
    }
    assert forall k | 0 <= k < |a| :: r[k] != '}';
    assert r[|a|] == '}';
  }

  /** The parts of a printed opening at the start of `r`, in the terms the scanner looks at. */
  ghost predicate OpeningHere(r: string, tag: Tag, arg: string) {
    var k := |OpenText(tag)|;
    && TagHere(r, tag, k)
    && ArgHere(r[k..], arg)
  }

  ghost predicate TagHere(r: string, tag: Tag, k: nat) {
    && k == |OpenText(tag)| < |r|
    && Begins(r, "{{#") && TagAt(r[3..]) == Some(tag)
    && IsSpace(r[k]) && !IsWord(r[k])
  }

  ghost predicate ArgHere(r: string, arg: string) {
    FirstBrace(r) == |arg| && r[..|arg|] == arg && Begins(r[|arg|..], "}}")
  }

  lemma OpenTagAt(src: string, i: nat, tag: Tag, arg: string)
    requires At(src, i, OpenText(tag)) && At(src, i + |OpenText(tag)|, arg + "}}") && WellFormedArg(arg)
    ensures TagHere(src[i..], tag, |OpenText(tag)|)
  {
    var r, k := src[i..], |OpenText(tag)|;
    AtSplit(src, i, "{{#", TagName(tag));
    BeginsAt(src, i, "{{#");
    BeginsAt(src, i + 3, TagName(tag));
    assert r[3..] == src[i + 3..];
    TagAtName(r[3..], tag);
    AtChar(src, i + k, arg + "}}", 0);
    assert r[k] == arg[0];
  }

  lemma OpenArgAt(src: string, j: nat, arg: string)
    requires At(src, j, arg + "}}") && NoBrace(arg)
    ensures ArgHere(src[j..], arg)
  {
    var r := src[j..];
    FirstBraceAt(src, j, arg);
    AtSplit(src, j, arg, "}}");
    BeginsAt(src, j + |arg|, "}}");
    assert r[|arg|..] == src[j + |arg|..];
    assert r[..|arg|] == src[j..j + |arg|];
  }

  lemma OpeningHereIs(r: string, tag: Tag, arg: string)
    requires OpeningHere(r, tag, arg)
    ensures MarkOf(r) == Some(OpenMark(tag))
    ensures OpenOf(r) == Some(Opening(tag, Trim(arg), 0, |OpenText(tag)| + |arg| + 2))
  {
    hide Begins, TagAt, FirstBrace, Trim, IsSpace, IsWord, OpenText, TagName;
    var k := |OpenText(tag)|;
    assert r[k..][|arg|..] == r[k + |arg|..];
    assert r[k..][..|arg|] == r[k..k + |arg|];
  }

  lemma OpenTextAt(src: string, i: nat, tag: Tag, arg: string)
    requires At(src, i, OpenText(tag) + (arg + "}}")) && WellFormedArg(arg)
    ensures MarkOf(src[i..]) == Some(OpenMark(tag))
    ensures OpenOf(src[i..]) == Some(Opening(tag, Trim(arg), 0, |OpenText(tag)| + |arg| + 2))
  {
    hide MarkOf, OpenOf, TagHere, ArgHere, OpenText, Trim, IsSpace, NoBrace;
    AtSplit(src, i, OpenText(tag), arg + "}}");
    OpenTagAt(src, i, tag, arg);
    OpenArgAt(src, i + |OpenText(tag)|, arg);
    assert src[i..][|OpenText(tag)|..] == src[i + |OpenText(tag)|..];
    OpeningHereIs(src[i..], tag, arg);
  }

  lemma CloseTextAt(src: string, i: nat, tag: Tag)
    requires At(src, i, CloseText(tag))
    ensures MarkOf(src[i..]) == Some(CloseMark(tag))
  {
    var r := src[i..];
    assert CloseText(tag) == "{{/" + (TagName(tag) + "}}");
    AtSplit(src, i, "{{/", TagName(tag) + "}}");
    AtSplit(src, i + 3, TagName(tag), "}}");
    BeginsAt(src, i, "{{#");
    BeginsAt(src, i, "{{/");
    Differs(src, i, "{{/", "{{#", 2);
    BeginsAt(src, i + 3, TagName(tag));
    assert r[3..] == src[i + 3..];
    TagAtName(r[3..], tag);
    BeginsAt(src, i, CloseText(tag));
  }

  lemma ElseAt(src: string, i: nat)
    requires At(src, i, ELSE)
    ensures MarkOf(src[i..]) == Some(ElseMark)
  {
    BeginsAt(src, i, "{{#");
    BeginsAt(src, i, "{{/");
    BeginsAt(src, i, ELSE);
    Differs(src, i, ELSE, "{{#", 2);
    Differs(src, i, ELSE, "{{/", 2);
  }

  // ---- the scanner passes over printed trees

  /** The text after a section's opening, piece by piece. */
  ghost predicate SectAt(src: string, i: nat, n: Node)
    requires n.Sect?
  {
    var b := i + |OpenText(n.tag) + (n.arg + "}}")|;
    var e := b + |Print(n.body)|;
    && At(src, i, OpenText(n.tag) + (n.arg + "}}"))
    && At(src, b, Print(n.body))
    && At(src, e, PrintElse(n.els))
    && At(src, e + |PrintElse(n.els)|, CloseText(n.tag))
    && i + |PrintNode(n)| == e + |PrintElse(n.els)| + |CloseText(n.tag)|
  }

  lemma SectPieces(src: string, i: nat, n: Node)
    requires n.Sect? && At(src, i, PrintNode(n))
    ensures SectAt(src, i, n)
  {
    var open, body, els, close := OpenText(n.tag) + (n.arg + "}}"), Print(n.body), PrintElse(n.els), CloseText(n.tag);
    assert PrintNode(n) == open + body + els + close;
    hide Print, PrintElse, OpenText, CloseText, PrintNode, At;
    AtSplit(src, i, open + body + els, close);
    AtSplit(src, i, open + body, els);
    AtSplit(src, i, open, body);
  }

  lemma MarkHere(src: string, i: nat, m: Mark)
    requires i <= |src| && MarkOf(src[i..]) == Some(m)
    ensures i + |MarkText(m)| <= |src| && Marks(src, i) == [Hit(i, m)] + Marks(src, i + |MarkText(m)|)
  {
    hide MarkOf, MarkText;
    assert NextMark(src, i) == Some(Hit(i, m));
  }

  /** The search for a section's end from position `i` on. */
  ghost function Search(src: string, i: nat, tag: Tag, d: nat, e: Option<nat>): Result<Closing, TemplateError>
    requires i <= |src| && d > 0
  {
    CloseIn(Marks(src, i), tag, d, e)
  }

  lemma PassQuiet(src: string, i: nat, j: nat, tag: Tag, d: nat, e: Option<nat>)
    requires Quiet(src, i, j) && d > 0
    ensures Search(src, i, tag, d, e) == Search(src, j, tag, d, e)
  {
    hide MarkOf, OpenOf, Marks, CloseIn;
    SkipQuiet(src, i, j);
  }

  lemma PassMark(src: string, i: nat, m: Mark, tag: Tag, d: nat, e: Option<nat>)
    requires i <= |src| && MarkOf(src[i..]) == Some(m) && d > 0
    ensures i + |MarkText(m)| <= |src|
    ensures var next := i + |MarkText(m)|;
            Search(src, i, tag, d, e) ==
              match m
              case OpenMark(_) => Search(src, next, tag, d + 1, e)
              case ElseMark => Search(src, next, tag, d, if d == 1 && e.None? then Some(i) else e)
              case CloseMark(t) =>
                if d > 1 then Search(src, next, tag, d - 1, e)
                else if t == tag then Ok(Closing(e, i))
                else Err(Mismatched(tag, t))
  {
    MarkHere(src, i, m);
    hide MarkOf, MarkText, CloseIn, Marks;
    CloseInStep(Hit(i, m), Marks(src, i + |MarkText(m)|), tag, d, e);
  }

  lemma PassArg(src: string, j: nat, arg: string, tag: Tag, d: nat, e: Option<nat>)
    requires At(src, j, arg + "}}") && NoBrace(arg) && d > 0
    ensures Search(src, j, tag, d, e) == Search(src, j + |arg + "}}"|, tag, d, e)
  {
    hide Quiet, Search, At;
    NoBraceQuiet(src, j, arg + "}}");
    PassQuiet(src, j, j + |arg + "}}"|, tag, d, e);
  }

  /** Past an opening tag the search goes on at the section's body, one level deeper. */
  lemma PassOpening(src: string, i: nat, n: Node, tag: Tag, d: nat, e: Option<nat>)
    requires n.Sect? && At(src, i, OpenText(n.tag) + (n.arg + "}}")) && WellFormedArg(n.arg) && d > 0
    ensures BodyAt(i, n) <= |src|
    ensures Search(src, i, tag, d, e) == Search(src, BodyAt(i, n), tag, d + 1, e)
  {
    hide MarkOf, OpenOf, Search, OpenText, At, IsSpace, NoBrace, TagName;
    var j := i + |OpenText(n.tag)|;
    AtSplit(src, i, OpenText(n.tag), n.arg + "}}");
    OpenTextAt(src, i, n.tag, n.arg);
    OpenFits(src, i, n);
    PassMark(src, i, OpenMark(n.tag), tag, d, e);
    PassArg(src, j, n.arg, tag, d + 1, e);
  }

  lemma OpenFits(src: string, i: nat, n: Node)
    requires n.Sect? && At(src, i, OpenText(n.tag) + (n.arg + "}}"))
    ensures i <= |src| && BodyAt(i, n) == i + |OpenText(n.tag)| + |n.arg + "}}"| <= |src|
  {
  }

  lemma PassElse(src: string, c: nat, ns: Nodes, tag: Tag, d: nat, e: Option<nat>)
    requires At(src, c, ELSE + Print(ns)) && d > 0
    ensures At(src, c, ELSE) && At(src, c + |ELSE|, Print(ns))
    ensures Search(src, c, tag, d, e) == Search(src, c + |ELSE|, tag, d, if d == 1 && e.None? then Some(c) else e)
  {
    hide MarkOf, NextMark, Marks, CloseIn, Search, Print;
    AtSplit(src, c, ELSE, Print(ns));
    ElseAt(src, c);
    PassMark(src, c, ElseMark, tag, d, e);
  }

  lemma PassPlain(src: string, i: nat, n: Node, tag: Tag, d: nat, e: Option<nat>)
    requires !n.Sect? && At(src, i, PrintNode(n)) && WellFormedNode(n) && d > 0
    ensures Search(src, i, tag, d, e) == Search(src, i + |PrintNode(n)|, tag, d, e)
  {
    hide *;
    PlainQuiet(src, i, n);
    PassQuiet(src, i, i + |PrintNode(n)|, tag, d, e);
  }

  function BodyAt(i: nat, n: Node): nat requires n.Sect? { i + |OpenText(n.tag) + (n.arg + "}}")| }
  function ElsePos(i: nat, n: Node): nat requires n.Sect? { BodyAt(i, n) + |Print(n.body)| }
  function ClosePos(i: nat, n: Node): nat requires n.Sect? { ElsePos(i, n) + |PrintElse(n.els)| }

  /** A printed tree leaves the depth and the recorded else as they were. */
  lemma {:induction false} SkipNodes(src: string, i: nat, ns: Nodes, tag: Tag, d: nat, e: Option<nat>)
    requires At(src, i, Print(ns)) && WellFormed(ns) && d > 0
    ensures Search(src, i, tag, d, e) == Search(src, i + |Print(ns)|, tag, d, e)
    decreases ns, 0
  {
    hide Search, PrintNode, WellFormedNode;
    match ns
    case Nil =>
    case Cons(n, rest) =>
      AtSplit(src, i, PrintNode(n), Print(rest));
      if n.Sect? {
        SkipSect(src, i, n, tag, d, e);
      } else {
        PassPlain(src, i, n, tag, d, e);
      }
      SkipNodes(src, i + |PrintNode(n)|, rest, tag, d, e);
  }

  /** From a section's else position on, the search arrives at its closing tag. */
  lemma {:induction false} SkipElse(src: string, c: nat, els: Else, tag: Tag, d: nat, e: Option<nat>)
    requires At(src, c, PrintElse(els)) && (els.Else? ==> WellFormed(els.nodes)) && d > 0
    ensures Search(src, c, tag, d, e) ==
            Search(src, c + |PrintElse(els)|, tag, d, if els.Else? && d == 1 && e.None? then Some(c) else e)
    decreases els, 0
  {
    hide Search, Print, WellFormed;
    if els.Else? {
      PassElse(src, c, els.nodes, tag, d, e);
      SkipNodes(src, c + |ELSE|, els.nodes, tag, d, if d == 1 && e.None? then Some(c) else e);
    }
  }

  /** The search from a section's body on arrives at the section's own closing tag. */
  lemma {:induction false} ReachClose(src: string, i: nat, n: Node, tag: Tag, d: nat, e: Option<nat>)
    requires n.Sect? && SectAt(src, i, n) && WellFormedNode(n) && d > 0
    ensures ClosePos(i, n) <= |src| && MarkOf(src[ClosePos(i, n)..]) == Some(CloseMark(n.tag))
    ensures Search(src, BodyAt(i, n), tag, d, e) ==
            Search(src, ClosePos(i, n), tag, d, if n.els.Else? && d == 1 && e.None? then Some(ElsePos(i, n)) else e)
    decreases n, 0
  {
    hide Search, Print, PrintElse, WellFormed, MarkOf, OpenText, CloseText, WellFormedArg;
    SkipNodes(src, BodyAt(i, n), n.body, tag, d, e);
    SkipElse(src, ElsePos(i, n), n.els, tag, d, e);
    CloseTextAt(src, ClosePos(i, n), n.tag);
  }

  lemma {:induction false} SkipSect(src: string, i: nat, n: Node, tag: Tag, d: nat, e: Option<nat>)
    requires n.Sect? && At(src, i, PrintNode(n)) && WellFormedNode(n) && d > 0
    ensures Search(src, i, tag, d, e) == Search(src, i + |PrintNode(n)|, tag, d, e)
    decreases n, 1
  {
    hide Search, PrintNode, At, BodyAt, ElsePos, ClosePos, MarkOf, OpenText, CloseText, WellFormed, WellFormedArg, Print, PrintElse, MarkText, SectAt;
    SectPieces(src, i, n);
    SectEnd(src, i, n);
    PassOpening(src, i, n, tag, d, e);
    ReachClose(src, i, n, tag, d + 1, e);
    PassMark(src, ClosePos(i, n), CloseMark(n.tag), tag, d + 1, e);
  }

  lemma SectEnd(src: string, i: nat, n: Node)
    requires n.Sect? && SectAt(src, i, n)
    ensures ClosePos(i, n) + |MarkText(CloseMark(n.tag))| == i + |PrintNode(n)| <= |src|
    ensures At(src, i, OpenText(n.tag) + (n.arg + "}}"))
    ensures i <= BodyAt(i, n) <= |src|
  {
  }

  function ElseText(els: Else): string { if els.Else? then Print(els.nodes) else "" }

  /** What the cutter makes of a printed section. */
  function SectionOf(n: Node, next: nat): Section
    requires n.Sect?
  {
    Section("", n.tag, Trim(n.arg), Print(n.body), ElseText(n.els), next)
  }

  /** The search from a section's body ends at the section's own close, with its own else. */
  lemma CloseOfSect(src: string, i: nat, n: Node)
    requires n.Sect? && SectAt(src, i, n) && WellFormedNode(n)
    ensures BodyAt(i, n) <= |src|
    ensures CloseOf(src, BodyAt(i, n), n.tag) == Ok(Closing(if n.els.Else? then Some(ElsePos(i, n)) else None, ClosePos(i, n)))
  {
    SectEnd(src, i, n);
    ReachClose(src, i, n, n.tag, 1, None);
    hide SectAt, WellFormedNode, MarkOf, Marks, CloseIn, BodyAt, ElsePos, ClosePos, OpenText, CloseText;
    PassMark(src, ClosePos(i, n), CloseMark(n.tag), n.tag, 1, if n.els.Else? then Some(ElsePos(i, n)) else None);
  }

  lemma OpeningHereFound(src: string, i: nat, o: Opening)
    requires i <= |src| && OpenOf(src[i..]) == Some(o)
    ensures FindOpen(src, i) == Some(o.(at := i))
  {
    hide OpenOf;
  }

  lemma NextSectionIs(src: string, i: nat, o: Opening, close: Closing)
    requires i <= |src| && FindOpen(src, i) == Some(o)
    requires CloseOf(src, o.Next(), o.tag) == Ok(close)
    ensures NextSection(src, i) == Ok(Some(CutAt(src, i, o, close)))
  {
    hide FindOpen, CutAt;
  }

  lemma SectSlices(src: string, i: nat, n: Node)
    requires n.Sect? && SectAt(src, i, n)
    ensures src[BodyAt(i, n)..ElsePos(i, n)] == Print(n.body)
    ensures n.els.Else? ==> ElsePos(i, n) + |ELSE| <= ClosePos(i, n) <= |src| && src[ElsePos(i, n) + |ELSE|..ClosePos(i, n)] == Print(n.els.nodes)
    ensures n.els.NoElse? ==> ElsePos(i, n) == ClosePos(i, n)
  {
    hide Print, OpenText, CloseText;
    if n.els.Else? { AtSplit(src, ElsePos(i, n), ELSE, Print(n.els.nodes)); }
  }

  /** The cutter finds exactly the pieces a section was printed from. */
  lemma CutSect(src: string, i: nat, n: Node)
    requires n.Sect? && At(src, i, PrintNode(n)) && WellFormedNode(n)
    ensures NextSection(src, i) == Ok(Some(SectionOf(n, i + |PrintNode(n)|)))
  {
    hide OpenOf, FindOpen, CloseOf, NextSection, At, SectAt, Print, PrintElse, Trim, MarkOf, OpenText, PrintNode, BodyAt, ElsePos, ClosePos, WellFormed, WellFormedArg;
    SectPieces(src, i, n);
    SectEnd(src, i, n);
    OpenTextAt(src, i, n.tag, n.arg);
    OpenFits(src, i, n);
    CloseOfSect(src, i, n);
    var o := Opening(n.tag, Trim(n.arg), i, |OpenText(n.tag)| + |n.arg| + 2);
    OpeningHereFound(src, i, o.(at := 0));
    var close := Closing(if n.els.Else? then Some(ElsePos(i, n)) else None, ClosePos(i, n));
    NextSectionIs(src, i, o, close);
    CutAtIs(src, i, n, o, close);
  }

  lemma CutAtIs(src: string, i: nat, n: Node, o: Opening, close: Closing)
    requires n.Sect? && SectAt(src, i, n)
    requires o == Opening(n.tag, Trim(n.arg), i, |OpenText(n.tag)| + |n.arg| + 2)
    requires close == Closing(if n.els.Else? then Some(ElsePos(i, n)) else None, ClosePos(i, n))
    requires i <= o.Next() <= close.closeAt <= |src|
    requires close.elseAt.Some? ==> o.Next() <= close.elseAt.value && close.elseAt.value + |ELSE| <= close.closeAt
    ensures CutAt(src, i, o, close) == SectionOf(n, i + |PrintNode(n)|)
  {
    hide Trim, OpenText, At, ElsePos, ClosePos;
    SectEnd(src, i, n);
    SectSlices(src, i, n);
    assert src[i..i] == "";
  }

  // ---- inline values

  /** A string that begins with a printed value has that value as its first slot. */
  lemma SlotAt(u: string, raw: bool, expr: string)
    requires At(u, 0, PrintNode(Inline(raw, expr))) && WellFormedExpr(expr)
    ensures SlotOf(u) == Some(SlotFor(raw, expr))
  {
    hide At, Begins, FirstBrace, Trim;
    if raw { RawSlotAt(u, expr); } else { PlainSlotAt(u, expr); }
  }

  lemma RawSlotAt(u: string, expr: string)
    requires At(u, 0, "{{{" + expr + "}}}") && WellFormedExpr(expr)
    ensures RawSlot(u) == Some(SlotFor(true, expr))
  {
    hide Begins, FirstBrace, Trim, At;
    var r := u[0..];
    assert r == u;
    assert "{{{" + expr + "}}}" == "{{{" + (expr + "}}}");
    AtSplit(u, 0, "{{{", expr + "}}}");
    AtSplit(u, 3, expr, "}}}");
    BeginsAt(u, 0, "{{{");
    AtFits(u, 3, expr + "}}}");
    BeginsAt(u, 3 + |expr|, "}}}");
    assert expr + "}}}" == expr + "}}" + "}";
    AtSplit(u, 3, expr + "}}", "}");
    FirstBraceAt(u, 3, expr);
    AtText(u, 3, expr);
  }

  lemma PlainSlotAt(u: string, expr: string)
    requires At(u, 0, "{{" + expr + "}}") && WellFormedExpr(expr)
    ensures RawSlot(u) == None && PlainSlot(u) == Some(SlotFor(false, expr))
  {
    hide Begins, FirstBrace, Trim, At;
    var r := u[0..];
    assert r == u;
    assert "{{" + expr + "}}" == "{{" + (expr + "}}");
    Differs(u, 0, "{{" + expr + "}}", "{{{", 2);
    BeginsAt(u, 0, "{{{");
    AtSplit(u, 0, "{{", expr + "}}");
    AtSplit(u, 2, expr, "}}");
    AtFits(u, 2, expr + "}}");
    BeginsAt(u, 0, "{{");
    BeginsAt(u, 2 + |expr|, "}}");
    FirstBraceAt(u, 2, expr);
    AtText(u, 2, expr);
    AtChar(u, 2, expr, 0);
  }

  lemma AtFits(src: string, i: nat, p: string)
    requires At(src, i, p)
    ensures i + |p| <= |src|
  {
  }

  lemma AtText(src: string, i: nat, p: string)
    requires At(src, i, p)
    ensures i + |p| <= |src| && src[i..i + |p|] == p
  {
  }

  lemma {:induction false} InlineSkip(u: string, k: nat, j: nat, sc: Scope)
    requires k <= j <= |u|
    requires forall h | k <= h < j :: SlotOf(u[h..]) == None
    ensures RenderInline(u[k..], sc) == u[k..j] + RenderInline(u[j..], sc)
    decreases j - k
  {
    hide SlotOf, Fill;
    if k < j {
      InlineSkip(u, k + 1, j, sc);
      assert SlotOf(u[k..]) == None;
      assert u[k..][1..] == u[k + 1..];
      assert u[k..j] == [u[k]] + u[k + 1..j];
    } else {
      assert u[k..j] == "";
    }
  }

  /** The html of a text or an inline value. */
  function PlainHtml(n: Node, sc: Scope): string
    requires !n.Sect?
  {
    if n.Text? then n.s else Fill(SlotFor(n.raw, n.expr), sc)
  }

  /** Replacing the inline values of a string replaces those of its printed pieces one after the other. */
  lemma InlineStep(n: Node, t: string, sc: Scope)
    requires !n.Sect? && WellFormedNode(n)
    ensures RenderInline(PrintNode(n) + t, sc) == PlainHtml(n, sc) + RenderInline(t, sc)
  {
    hide SlotOf, SlotFor, Fill;
    var u, p := PrintNode(n) + t, PrintNode(n);
    assert u[..|p|] == p && u[|p|..] == t && u[0..] == u;
    assert At(u, 0, p);
    if n.Text? {
      TextQuiet(u, 0, n.s);
      InlineSkip(u, 0, |p|, sc);
    } else {
      SlotAt(u, n.raw, n.expr);
      assert SlotFor(n.raw, n.expr).len == |p| by { SlotForLen(n.raw, n.expr); }
    }
  }

  lemma SlotForLen(raw: bool, expr: string)
    ensures SlotFor(raw, expr).len == |PrintNode(Inline(raw, expr))|
  {
  }

  // ---- the renderer computes the meaning

  /** The bound and the plain text do not matter to what a section comes to. */
  lemma BodyDependsOn(s: Section, t: Section, b: int, c: int, sc: Scope)
    requires s.tag == t.tag && s.arg == t.arg && s.body == t.body && s.elseBody == t.elseBody
    requires |s.body| < b && |s.elseBody| < b && |s.body| < c && |s.elseBody| < c
    ensures SectionBody(s, sc, b) == SectionBody(t, sc, c)
  {
    hide SectionFrom, EachFrom, Lookup, Truthy, BlockId, Wrap;
  }

  /** A text or an inline value at `i` moves into the plain text of the next section. */
  lemma PlainMovesOver(src: string, i: nat, n: Node)
    requires !n.Sect? && At(src, i, PrintNode(n)) && WellFormedNode(n)
    ensures var j, p := i + |PrintNode(n)|, PrintNode(n);
            && j <= |src| && src[i..] == p + src[j..]
            && var next := NextSection(src, j);
               NextSection(src, i) == if next.Ok? && next.value.Some? then Ok(Some(next.value.value.(plain := p + next.value.value.plain))) else next
  {
    hide PrintNode, FindOpen, CloseOf, MarkOf, OpenOf;
    var j := i + |PrintNode(n)|;
    PlainQuiet(src, i, n);
    SkipQuiet(src, i, j);
    var found := FindOpen(src, j);
    if found.Some? {
      assert src[i..found.value.at] == src[i..j] + src[j..found.value.at];
    }
  }

  lemma PlainStep(src: string, i: nat, n: Node, sc: Scope)
    requires !n.Sect? && At(src, i, PrintNode(n)) && WellFormedNode(n)
    ensures i + |PrintNode(n)| <= |src|
    ensures SectionFrom(src, i, sc) == Then(Out(PlainHtml(n, sc), []), SectionFrom(src, i + |PrintNode(n)|, sc))
  {
    hide PrintNode, NextSection, RenderInline, PlainHtml, SectionFrom, SectionBody, At, WellFormedNode;
    PlainMovesOver(src, i, n);
    var j, out := i + |PrintNode(n)|, Out(PlainHtml(n, sc), []);
    SectionFromUnfold(src, i, sc);
    SectionFromUnfold(src, j, sc);
    var next := NextSection(src, j);
    if next == Ok(None) {
      InlineStep(n, src[j..], sc);
      assert Append(out, Out(RenderInline(src[j..], sc), [])) == Out(RenderInline(src[i..], sc), []);
    } else if next.Ok? {
      var s := next.value.value;
      var t := NextSection(src, i).value.value;
      InlineStep(n, s.plain, sc);
      BodyDependsOn(s, t, |src| - j, |src| - i, sc);
      var mid := SectionBody(s, sc, |src| - j);
      if mid.Ok? {
        assert Append(out, Out(RenderInline(s.plain, sc), [])) == Out(RenderInline(t.plain, sc), []);
        AppendAssoc(out, Out(RenderInline(s.plain, sc), []), mid.value);
        ThenThen(out, Append(Out(RenderInline(s.plain, sc), []), mid.value), SectionFrom(src, s.next, sc));
      }
    }
  }

  lemma AppendAssoc(a: Out, b: Out, c: Out)
    ensures Append(Append(a, b), c) == Append(a, Append(b, c))
  {
    assert a.html + b.html + c.html == a.html + (b.html + c.html);
    assert a.blocks + b.blocks + c.blocks == a.blocks + (b.blocks + c.blocks);
  }

  /** Rendering from the place where a printed tree starts, up to the end of the source, gives the tree's meaning. */
  lemma {:induction false} SectionFromMeaning(src: string, i: nat, ns: Nodes, sc: Scope)
    requires At(src, i, Print(ns)) && i + |Print(ns)| == |src| && WellFormed(ns)
    ensures SectionFrom(src, i, sc) == Meaning(ns, sc)
    decreases ns, 2, 0
  {
    hide SectionFrom, At, WellFormedNode, PrintNode, NodeMeaning, PlainHtml;
    match ns
    case Nil => SectionFromEnd(src, sc);
    case Cons(n, rest) =>
      var j := i + |PrintNode(n)|;
      AtSplit(src, i, PrintNode(n), Print(rest));
      SectionFromMeaning(src, j, rest, sc);
      if n.Sect? {
        SectStep(src, i, n, sc);
      } else {
        PlainStep(src, i, n, sc);
        PlainMeaning(n, sc);
      }
  }

  lemma PlainMeaning(n: Node, sc: Scope)
    requires !n.Sect?
    ensures NodeMeaning(n, sc) == Ok(Out(PlainHtml(n, sc), []))
  {
  }

  lemma {:induction false} SectStep(src: string, i: nat, n: Node, sc: Scope)
    requires n.Sect? && At(src, i, PrintNode(n)) && WellFormedNode(n)
    ensures i + |PrintNode(n)| <= |src|
    ensures var m := NodeMeaning(n, sc);
            SectionFrom(src, i, sc) == if m.Err? then m else Then(m.value, SectionFrom(src, i + |PrintNode(n)|, sc))
    decreases n, 1, 0
  {
    hide SectionFrom, NextSection, SectionBody, At, WellFormedNode, PrintNode, NodeMeaning, SectionOf;
    CutSect(src, i, n);
    SectionFromUnfold(src, i, sc);
    var s := SectionOf(n, i + |PrintNode(n)|);
    SectFits(src, i, n);
    SectMeaning(n, s.next, |src| - i, sc);
    var m := NodeMeaning(n, sc);
    if m.Ok? {
      assert RenderInline("", sc) == "";
      assert "" + m.value.html == m.value.html && [] + m.value.blocks == m.value.blocks;
    }
  }

  lemma SectFits(src: string, i: nat, n: Node)
    requires n.Sect? && At(src, i, PrintNode(n))
    ensures var s := SectionOf(n, i + |PrintNode(n)|);
            && s.plain == "" && s.next == i + |PrintNode(n)| <= |src|
            && |s.body| < |src| - i && |s.elseBody| < |src| - i
  {
  }

  /** The section cut out for a node comes to the node's meaning. */
  lemma {:induction false} SectMeaning(n: Node, next: nat, bound: nat, sc: Scope)
    requires n.Sect? && WellFormedNode(n)
    requires var s := SectionOf(n, next); |s.body| < bound && |s.elseBody| < bound
    ensures SectionBody(SectionOf(n, next), sc, bound) == NodeMeaning(n, sc)
    decreases n, 0, 0
  {
    hide SectionFrom, EachFrom, Meaning, ItemsMeaning, At, WellFormed, Print, Lookup, Truthy, BlockId, Wrap, Trim;
    SourceMeaning(n.body, sc);
    if n.els.Else? {
      SourceMeaning(n.els.nodes, sc);
    } else {
      SectionFromEnd("", sc);
    }
    var v := Lookup(sc.frames, Trim(n.arg));
    if n.tag == Each && v.Arr? {
      ItemsFromMeaning(v.items, 0, n.body, sc);
    }
  }

  lemma {:induction false} ItemsFromMeaning(items: seq<Value>, k: nat, body: Nodes, sc: Scope)
    requires k <= |items| && WellFormed(body)
    ensures EachFrom(items, k, Print(body), sc) == ItemsMeaning(items, k, body, sc)
    decreases body, 4, |items| - k
  {
    hide SectionFrom, Meaning, Print, WellFormed;
    if k < |items| {
      SourceMeaning(body, ItemScope(sc, items, k));
      ItemsFromMeaning(items, k + 1, body, sc);
    }
  }

  /**
   * For every well-formed tree, in every scope, rendering its text yields the tree's direct meaning:
   * the same html, the same blocks in the order they are finished, or the same error.
   */
  lemma {:induction false} SourceMeaning(ns: Nodes, sc: Scope)
    requires WellFormed(ns)
    ensures SectionFrom(Print(ns), 0, sc) == Meaning(ns, sc)
    decreases ns, 3, 0
  {
    hide SectionFrom, Meaning, Print, WellFormed;
    assert Print(ns)[0..|Print(ns)|] == Print(ns);
    SectionFromMeaning(Print(ns), 0, ns, sc);
  }

  /** The same, of the loop the source runs. */
  method RenderTree(ns: Nodes, sc: Scope, blocks: BlockList) returns (r: Result<string, TemplateError>)
    requires WellFormed(ns)
    modifies blocks
    ensures Pushed(Meaning(ns, sc), r, old(blocks.items), blocks.items)
  {
    SourceMeaning(ns, sc);
    r := RenderSection(Print(ns), sc, blocks);
  }
}
