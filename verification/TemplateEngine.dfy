/**
 * The section renderer of the notice templates (src/notices/render.ts:55-119).  `SectionFrom` is what
 * rendering a source from a position on comes to, as a function; `RenderSection` is the source's own
 * loop over indices, pushing onto a shared list of layout blocks, proved to compute it.
 */
module TemplateEngine {
  import opened Basics
  import opened TemplateScan
  import opened TemplateValues

  /** A laid-out block: its id, the texts of its layout attributes, and its text without tags. */
  datatype RenderedBlock = RenderedBlock(id: string, page: string, y: string, pt: string, bold: bool, text: string)

  /** Html, and the blocks in the order they were finished. */
  datatype Out = Out(html: string, blocks: seq<RenderedBlock>)

  type Rendering = Result<Out, TemplateError>

  const NOTHING := Out("", [])

  function Append(a: Out, b: Out): Out { Out(a.html + b.html, a.blocks + b.blocks) }

  /** `done` in front of what is still to come. */
  function Then(done: Out, rest: Rendering): Rendering {
    if rest.Ok? then Ok(Append(done, rest.value)) else rest
  }

  // ---- block attributes and block text

  function WordLen(s: string, dots: bool): (n: nat)
    ensures n <= |s|
  {
    if s != "" && (IsWord(s[0]) || (dots && s[0] == '.')) then 1 + WordLen(s[1..], dots) else 0
  }

  /** An attribute found at the start of a text, or none, and where the matching goes on. */
  datatype Found = Found(name: string, value: Option<string>, next: nat)

  /** A name, and the value after its `=` if there is one. */
  function NextAttribute(s: string): (f: Found)
    requires s != ""
    ensures 0 < f.next <= |s|
  {
    var n := WordLen(s, false);
    if n == 0 then Found("", None, 1)
    else
      var v := if n < |s| && s[n] == '=' then WordLen(s[n + 1..], true) else 0;
      if v == 0 then Found(s[..n], Some("true"), n) else Found(s[..n], Some(s[n + 1..n + 1 + v]), n + 1 + v)
  }

  /** Every name, with its value or "true"; a later name overrides an earlier one. */
  function Attributes(s: string): map<string, string>
    decreases |s|
  {
    if s == "" then map[]
    else
      var f := NextAttribute(s);
      (if f.value.Some? then map[f.name := f.value.value] else map[]) + Attributes(s[f.next..])
  }

  function IndexOf(s: string, c: char): (k: nat)
    ensures k <= |s|
    ensures k < |s| ==> s[k] == c
    ensures forall j | 0 <= j < k :: s[j] != c
  {
    if s == "" || s[0] == c then 0 else 1 + IndexOf(s[1..], c)
  }

  /** The quoted id a block's argument must begin with. */
  function BlockId(arg: string): (id: Option<string>)
    ensures id.Some? ==> |id.value| + 2 <= |arg|
  {
    if arg == "" || arg[0] != '"' then None
    else
      var n := IndexOf(arg[1..], '"');
      if 0 < n < |arg| - 1 then Some(arg[1..1 + n]) else None
  }

  /** Replaces every tag `<...>` by a space. */
  function StripTags(s: string): string
    decreases |s|
  {
    if s == "" then ""
    else
      var n := if s[0] == '<' then IndexOf(s[1..], '>') else 0;
      if 0 < n < |s| - 1 then " " + StripTags(s[n + 2..]) else [s[0]] + StripTags(s[1..])
  }

  /** Replaces every run of white space by one space. */
  function Collapse(s: string): string {
    if s == "" then ""
    else if !IsSpace(s[0]) then [s[0]] + Collapse(s[1..])
    else if |s| > 1 && IsSpace(s[1]) then Collapse(s[1..])
    else " " + Collapse(s[1..])
  }

  function Attr(attrs: map<string, string>, name: string, default: string): string {
    if name in attrs then attrs[name] else default
  }

  function LayOut(id: string, attrs: map<string, string>, inner: string): RenderedBlock {
    RenderedBlock(id, Attr(attrs, "page", "1"), Attr(attrs, "y", "0"), Attr(attrs, "pt", "10"),
                  Attr(attrs, "bold", "") == "true", Trim(Collapse(StripTags(inner))))
  }

  function OpenTag(b: RenderedBlock): string {
    "<section data-block=\"" + b.id + "\" data-page=\"" + b.page + "\" data-y=\"" + b.y + "\" data-pt=\"" + b.pt + "\"" +
    (if b.bold then " class=\"bold\"" else "") + ">"
  }

  const CLOSE_TAG := "</section>"

  /** The block with argument `arg` around `inner`: the inner blocks come first, then the block itself. */
  function Wrap(arg: string, id: string, inner: Out): Out
    requires |id| + 2 <= |arg|
  {
    var block := LayOut(id, Attributes(arg[|id| + 2..]), inner.html);
    Out(OpenTag(block) + inner.html + CLOSE_TAG, inner.blocks + [block])
  }

  // ---- cutting a source into sections

  /** The text before a section, the section's two bodies, and where the source goes on after it. */
  datatype Section = Section(plain: string, tag: Tag, arg: string, body: string, elseBody: string, next: nat)

  /** The next section at or after `i`, if any. */
  function NextSection(src: string, i: nat): (r: Result<Option<Section>, TemplateError>)
    requires i <= |src|
    ensures r.Ok? && r.value.Some? ==>
      var s := r.value.value;
      && i < s.next <= |src|
      && |s.body| < |src| - i
      && |s.elseBody| < |src| - i
  {
    match FindOpen(src, i)
    case None => Ok(None)
    case Some(o) =>
      match CloseOf(src, o.Next(), o.tag)
      case Err(e) => Err(e)
      case Ok(close) => Ok(Some(CutAt(src, i, o, close)))
  }

  function CutAt(src: string, i: nat, o: Opening, close: Closing): (s: Section)
    requires i <= o.at <= o.Next() <= close.closeAt <= |src|
    requires close.elseAt.Some? ==> o.Next() <= close.elseAt.value && close.elseAt.value + |ELSE| <= close.closeAt
    ensures |s.body| <= close.closeAt - o.Next() && |s.elseBody| <= close.closeAt - o.Next()
    ensures s.next == close.closeAt + |CloseText(o.tag)|
  {
    var (bodyEnd, elseBody) :=
      if close.elseAt.Some? then (close.elseAt.value, src[close.elseAt.value + |ELSE|..close.closeAt]) else (close.closeAt, "");
    Section(src[i..o.at], o.tag, o.arg, src[o.Next()..bodyEnd], elseBody, close.closeAt + |CloseText(o.tag)|)
  }

  // ---- rendering

  /** What rendering `src` from position `i` on comes to. */
  function SectionFrom(src: string, i: nat, sc: Scope): Rendering
    requires i <= |src|
    decreases |src| - i, 0, 0
  {
    match NextSection(src, i)
    case Err(e) => Err(e)
    case Ok(None) => Ok(Out(RenderInline(src[i..], sc), []))
    case Ok(Some(s)) =>
      AfterBody(s, SectionBody(s, sc, |src| - i), sc, SectionFrom(src, s.next, sc))
  }

  /** The plain text, the section that follows it, and the rest. */
  function AfterBody(s: Section, mid: Rendering, sc: Scope, rest: Rendering): Rendering {
    if mid.Err? then mid else Then(Append(Out(RenderInline(s.plain, sc), []), mid.value), rest)
  }

  /** What one section comes to; both bodies are shorter than `bound`. */
  function SectionBody(s: Section, sc: Scope, ghost bound: nat): Rendering
    requires |s.body| < bound && |s.elseBody| < bound
    decreases bound - 1, 2, 0
  {
    match s.tag
    case If => SectionFrom(if Truthy(Lookup(sc.frames, s.arg)) then s.body else s.elseBody, 0, sc)
    case Unless => SectionFrom(if Truthy(Lookup(sc.frames, s.arg)) then s.elseBody else s.body, 0, sc)
    case Each =>
      var v := Lookup(sc.frames, s.arg);
      if v.Arr? && v.items != [] then EachFrom(v.items, 0, s.body, sc) else SectionFrom(s.elseBody, 0, sc)
    case Block =>
      var id := BlockId(s.arg);
      if id.None? then Err(BlockNeedsId(s.arg))
      else
        match SectionFrom(s.body, 0, sc)
        case Err(e) => Err(e)
        case Ok(inner) => Ok(Wrap(s.arg, id.value, inner))
  }

  function ItemScope(sc: Scope, items: seq<Value>, k: nat): Scope
    requires k < |items|
  {
    sc.(frames := sc.frames + [Frame(items[k], Some(k))])
  }

  /** The body once per item from the `k`-th on, each in its own scope. */
  function EachFrom(items: seq<Value>, k: nat, body: string, sc: Scope): Rendering
    requires k <= |items|
    decreases |body|, 1, |items| - k
  {
    if k == |items| then Ok(NOTHING)
    else
      match SectionFrom(body, 0, ItemScope(sc, items, k))
      case Err(e) => Err(e)
      case Ok(first) => Then(first, EachFrom(items, k + 1, body, sc))
  }

  lemma ThenThen(a: Out, b: Out, rest: Rendering)
    ensures Then(a, Then(b, rest)) == Then(Append(a, b), rest)
  {
    if rest.Ok? {
      assert a.html + (b.html + rest.value.html) == a.html + b.html + rest.value.html;
      assert a.blocks + (b.blocks + rest.value.blocks) == a.blocks + b.blocks + rest.value.blocks;
    }
  }

  lemma ThenNothing(a: Out, rest: Rendering)
    ensures Then(NOTHING, rest) == rest
    ensures Then(a, Ok(NOTHING)) == Ok(a)
  {
    assert a.html + "" == a.html && a.blocks + [] == a.blocks;
    if rest.Ok? {
      assert "" + rest.value.html == rest.value.html && [] + rest.value.blocks == rest.value.blocks;
    }
  }

  /** A call answered `r` and took the shared blocks from `before` to `after`, as `spec` says; after an exception the blocks are of no use. */
  ghost predicate Pushed(spec: Rendering, r: Result<string, TemplateError>, before: seq<RenderedBlock>, after: seq<RenderedBlock>) {
    match spec
    case Ok(out) => r == Ok(out.html) && after == before + out.blocks
    case Err(e) => r == Err(e)
  }

  /** The mutable list of finished blocks that all the recursive calls share. */
  class BlockList {
    var items: seq<RenderedBlock>
    constructor ()
      ensures items == []
    {
      items := [];
    }
  }

  /** The source's own cutting of the next section: the opening, the search for its end, and the slices between them. */
  method Cut(src: string, i: nat) returns (r: Result<Option<Section>, TemplateError>)
    requires i <= |src|
    ensures r == NextSection(src, i)
  {
    var m := FindOpen(src, i);
    if m.None? {
      return Ok(None);
    }
    var o := m.value;
    var found := FindClose(src, o.tag, o.Next());
    match found {
      case Err(e) => return Err(e);
      case Ok(close) => return Ok(Some(CutAt(src, i, o, close)));
    }
  }

  /** One turn of the loop below. */
  lemma SectionFromUnfold(src: string, i: nat, sc: Scope)
    requires i <= |src|
    ensures var n := NextSection(src, i);
            && (n.Err? ==> SectionFrom(src, i, sc) == Err(n.error))
            && (n == Ok(None) ==> SectionFrom(src, i, sc) == Ok(Out(RenderInline(src[i..], sc), [])))
            && (n.Ok? && n.value.Some? ==>
                  SectionFrom(src, i, sc) == AfterBody(n.value.value, SectionBody(n.value.value, sc, |src| - i), sc, SectionFrom(src, n.value.value.next, sc)))
  {
    hide NextSection, RenderInline, SectionBody;
  }

  /** The renderer as the source runs it: a loop over positions, with the blocks pushed onto a shared list. */
  method RenderSection(src: string, sc: Scope, blocks: BlockList) returns (r: Result<string, TemplateError>)
    modifies blocks
    ensures Pushed(SectionFrom(src, 0, sc), r, old(blocks.items), blocks.items)
    decreases |src|, 0
  {
    hide NextSection, SectionFrom, SectionBody, RenderInline;
    var out, i := "", 0;
    ghost var done := NOTHING;
    ThenNothing(NOTHING, SectionFrom(src, 0, sc));
    while i < |src|
      invariant i <= |src|
      invariant done.html == out && blocks.items == old(blocks.items) + done.blocks
      invariant SectionFrom(src, 0, sc) == Then(done, SectionFrom(src, i, sc))
    {
      var section := Cut(src, i);
      SectionFromUnfold(src, i, sc);
      match section {
        case Err(e) => return Err(e);
        case Ok(None) =>
          assert done.blocks + [] == done.blocks;
          return Ok(out + RenderInline(src[i..], sc));
        case Ok(Some(s)) =>
          out := out + RenderInline(s.plain, sc);
          var mid := RenderBody(s, sc, blocks, |src| - i);
          if mid.Err? {
            return Err(mid.error);
          }
          out := out + mid.value;
          ghost var here := Append(Out(RenderInline(s.plain, sc), []), SectionBody(s, sc, |src| - i).value);
          ThenThen(done, here, SectionFrom(src, s.next, sc));
          done := Append(done, here);
          i := s.next;
      }
    }
    assert src[i..] == "";
    SectionFromEnd(src, sc);
    ThenNothing(done, Ok(NOTHING));
    return Ok(out);
  }

  lemma SectionFromEnd(src: string, sc: Scope)
    ensures SectionFrom(src, |src|, sc) == Ok(NOTHING)
  {
    assert src[|src|..] == "";
    assert OpenOf("").None?;
    assert FindOpen(src, |src|).None?;
  }

  /** One section of the loop above: the branch taken, the items iterated, or the block laid out. */
  method RenderBody(s: Section, sc: Scope, blocks: BlockList, ghost bound: nat) returns (r: Result<string, TemplateError>)
    requires |s.body| < bound && |s.elseBody| < bound
    modifies blocks
    ensures Pushed(SectionBody(s, sc, bound), r, old(blocks.items), blocks.items)
    decreases bound - 1, 2
  {
    if s.tag == If || s.tag == Unless {
      var v := Truthy(Lookup(sc.frames, s.arg));
      r := RenderSection(if (s.tag == If) == v then s.body else s.elseBody, sc, blocks);
    } else if s.tag == Each {
      var v := Lookup(sc.frames, s.arg);
      if v.Arr? && v.items != [] {
        r := RenderItems(v.items, s.body, sc, blocks);
      } else {
        r := RenderSection(s.elseBody, sc, blocks);
      }
    } else {
      var id := BlockId(s.arg);
      if id.None? {
        return Err(BlockNeedsId(s.arg));
      }
      var inner := RenderSection(s.body, sc, blocks);
      if inner.Err? {
        return inner;
      }
      var block := LayOut(id.value, Attributes(s.arg[|id.value| + 2..]), inner.value);
      blocks.items := blocks.items + [block];
      r := Ok(OpenTag(block) + inner.value + CLOSE_TAG);
    }
  }

  method RenderItems(items: seq<Value>, body: string, sc: Scope, blocks: BlockList) returns (r: Result<string, TemplateError>)
    modifies blocks
    ensures Pushed(EachFrom(items, 0, body, sc), r, old(blocks.items), blocks.items)
    decreases |body|, 1
  {
    hide NextSection, SectionFrom;
    var out := "";
    ghost var done := NOTHING;
    ThenNothing(NOTHING, EachFrom(items, 0, body, sc));
    for idx := 0 to |items|
      invariant done.html == out && blocks.items == old(blocks.items) + done.blocks
      invariant EachFrom(items, 0, body, sc) == Then(done, EachFrom(items, idx, body, sc))
    {
      var one := RenderSection(body, ItemScope(sc, items, idx), blocks);
      if one.Err? {
        return Err(one.error);
      }
      out := out + one.value;
      ghost var first := SectionFrom(body, 0, ItemScope(sc, items, idx)).value;
      ThenThen(done, first, EachFrom(items, idx + 1, body, sc));
      done := Append(done, first);
    }
    ThenNothing(done, Ok(NOTHING));
    return Ok(out);
  }
}
