/**
 * The lexical layer of the notice templates: what the section scanner recognises at the start of a
 * string, where the next section opens, and the depth-counting search for a section's end
 * (src/notices/render.ts:68-86).  A function over `r` models a regular expression anchored at the
 * start of `r`; a search tries it at every later position, leftmost first.
 */
module TemplateScan {
  import opened Basics

  datatype Tag = If | Unless | Each | Block

  /** What `findClose` counts: an opening, a closing tag, or an else. */
  datatype Mark = OpenMark(tag: Tag) | CloseMark(tag: Tag) | ElseMark

  datatype TemplateError =
    | Unclosed(tag: Tag)
    | Mismatched(expected: Tag, found: Tag)
    | BlockNeedsId(arg: string)

  /** The opening tag `renderSection` found: its kind, its trimmed argument, its position and the length of its text. */
  datatype Opening = Opening(tag: Tag, arg: string, at: nat, len: nat) {
    function Next(): nat { at + len }
  }

  /** Where a section ends: its first depth-one else, if any, and its closing tag. */
  datatype Closing = Closing(elseAt: Option<nat>, closeAt: nat)

  function TagName(t: Tag): string {
    match t
    case If => "if"
    case Unless => "unless"
    case Each => "each"
    case Block => "block"
  }

  const ELSE := "{{else}}"

  /** `r` begins with `p`. */
  predicate Begins(r: string, p: string)
    ensures Begins(r, p) ==> |p| <= |r|
  {
    p == "" || (r != "" && r[0] == p[0] && Begins(r[1..], p[1..]))
  }

  function OpenText(t: Tag): string { "{{#" + TagName(t) }

  function CloseText(t: Tag): string { "{{/" + TagName(t) + "}}" }

  function MarkText(m: Mark): (s: string)
    ensures |s| >= 5
  {
    match m
    case OpenMark(t) => OpenText(t)
    case CloseMark(t) => CloseText(t)
    case ElseMark => ELSE
  }

  /** The characters matched by `\s` and removed by `trim`. */
  predicate IsSpace(c: char) {
    '\t' <= c <= '\r' || c == ' ' || c == '\U{A0}' || c == '\U{1680}' || '\U{2000}' <= c <= '\U{200A}' ||
    c == '\U{2028}' || c == '\U{2029}' || c == '\U{202F}' || c == '\U{205F}' || c == '\U{3000}' || c == '\U{FEFF}'
  }

  /** The characters matched by `\w`. */
  predicate IsWord(c: char) {
    'a' <= c <= 'z' || 'A' <= c <= 'Z' || '0' <= c <= '9' || c == '_'
  }

  function TrimStart(s: string): (r: string)
    ensures |r| <= |s|
  {
    if s != "" && IsSpace(s[0]) then TrimStart(s[1..]) else s
  }

  function TrimEnd(s: string): (r: string)
    ensures |r| <= |s|
  {
    if s != "" && IsSpace(s[|s| - 1]) then TrimEnd(s[..|s| - 1]) else s
  }

  function Trim(s: string): string { TrimEnd(TrimStart(s)) }

  /** The section name `r` begins with. */
  function TagAt(r: string): (t: Option<Tag>)
  {
    if Begins(r, TagName(If)) then Some(If)
    else if Begins(r, TagName(Unless)) then Some(Unless)
    else if Begins(r, TagName(Each)) then Some(Each)
    else if Begins(r, TagName(Block)) then Some(Block)
    else None
  }

  /** The scanner's three alternatives at the start of `r`; an opening must end at a word boundary. */
  function MarkOf(r: string): (m: Option<Mark>)
    ensures m.Some? ==> |MarkText(m.value)| <= |r|
  {
    if Begins(r, "{{#") then
      match TagAt(r[3..])
      case None => None
      case Some(t) =>
        var k := |OpenText(t)|;
        if k < |r| && IsWord(r[k]) then None
        else
          Some(OpenMark(t))
    else if Begins(r, "{{/") then
      match TagAt(r[3..])
      case None => None
      case Some(t) =>
        if Begins(r, CloseText(t)) then Some(CloseMark(t)) else None
    else if Begins(r, ELSE) then Some(ElseMark)
    else None
  }

  /** The position of the first `}` in `r`, or its length. */
  function FirstBrace(r: string): (k: nat)
    ensures k <= |r|
    ensures k < |r| ==> r[k] == '}'
    ensures forall j :: 0 <= j < k ==> r[j] != '}'
  {
    if r == "" || r[0] == '}' then 0 else 1 + FirstBrace(r[1..])
  }

  /** The opening `renderSection` accepts at the start of `r`: white space after the name, then everything up to `}}`. */
  function OpenOf(r: string): (o: Option<Opening>)
    ensures o.Some? ==> o.value.at == 0 && 0 < o.value.len <= |r|
  {
    if Begins(r, "{{#") then
      match TagAt(r[3..])
      case None => None
      case Some(t) =>
        var k := |OpenText(t)|;
        if k < |r| && IsSpace(r[k]) then
          var n := FirstBrace(r[k..]);
          if Begins(r[k + n..], "}}") then Some(Opening(t, Trim(r[k..k + n]), 0, k + n + 2)) else None
        else None
    else None
  }

  /** The leftmost opening at or after `i`. */
  function FindOpen(src: string, i: nat): (f: Option<Opening>)
    requires i <= |src|
    ensures f.Some? ==> i <= f.value.at < f.value.Next() <= |src|
    decreases |src| - i
  {
    match OpenOf(src[i..])
    case Some(o) => Some(o.(at := i))
    case None => if i == |src| then None else FindOpen(src, i + 1)
  }

  /** A mark, and where it was found. */
  datatype Hit = Hit(at: nat, mark: Mark) {
    function Next(): nat { at + |MarkText(mark)| }
  }

  /** The leftmost mark at or after `i`. */
  function NextMark(src: string, i: nat): (h: Option<Hit>)
    requires i <= |src|
    ensures h.Some? ==> i <= h.value.at < h.value.Next() <= |src|
    decreases |src| - i
  {
    match MarkOf(src[i..])
    case Some(m) => Some(Hit(i, m))
    case None => if i == |src| then None else NextMark(src, i + 1)
  }

  /** All marks from `i` on, found one after the other without overlap. */
  function Marks(src: string, i: nat): seq<Hit>
    requires i <= |src|
    decreases |src| - i
  {
    match NextMark(src, i)
    case None => []
    case Some(h) => [h] + Marks(src, h.Next())
  }

  /** The search for the end of a section of kind `tag` through the marks that follow, at nesting depth `depth`. */
  function CloseIn(ms: seq<Hit>, tag: Tag, depth: nat, elseAt: Option<nat>): Result<Closing, TemplateError>
    requires depth > 0
  {
    if ms == [] then Err(Unclosed(tag))
    else
      match ms[0].mark
      case OpenMark(_) => CloseIn(ms[1..], tag, depth + 1, elseAt)
      case ElseMark => CloseIn(ms[1..], tag, depth, if depth == 1 && elseAt.None? then Some(ms[0].at) else elseAt)
      case CloseMark(t) =>
        if depth > 1 then CloseIn(ms[1..], tag, depth - 1, elseAt)
        else if t == tag then Ok(Closing(elseAt, ms[0].at))
        else Err(Mismatched(tag, t))
  }

  lemma CloseInStep(h: Hit, ms: seq<Hit>, tag: Tag, depth: nat, elseAt: Option<nat>)
    requires depth > 0
    ensures CloseIn([h] + ms, tag, depth, elseAt) ==
      match h.mark
      case OpenMark(_) => CloseIn(ms, tag, depth + 1, elseAt)
      case ElseMark => CloseIn(ms, tag, depth, if depth == 1 && elseAt.None? then Some(h.at) else elseAt)
      case CloseMark(t) =>
        if depth > 1 then CloseIn(ms, tag, depth - 1, elseAt)
        else if t == tag then Ok(Closing(elseAt, h.at))
        else Err(Mismatched(tag, t))
  {
    assert ([h] + ms)[1..] == ms;
  }

  /** Where the section of kind `tag` whose body starts at `from` ends: the cuts lie inside the source, in order. */
  function CloseOf(src: string, from: nat, tag: Tag): (r: Result<Closing, TemplateError>)
    requires from <= |src|
    ensures r.Ok? ==>
      && from <= r.value.closeAt
      && r.value.closeAt + |CloseText(tag)| <= |src|
      && (r.value.elseAt.Some? ==> from <= r.value.elseAt.value && r.value.elseAt.value + |ELSE| <= r.value.closeAt)
  {
    CloseInBounds(src, from, tag);
    CloseIn(Marks(src, from), tag, 1, None)
  }

  /** The effect of a mark on the nesting depth. */
  function Delta(m: Mark): int {
    match m
    case OpenMark(_) => 1
    case CloseMark(_) => -1
    case ElseMark => 0
  }

  /** The nesting depth after the first `k` marks, from depth `d`. */
  function Depth(ms: seq<Hit>, d: int, k: nat): int
    requires k <= |ms|
  {
    if k == 0 then d else Depth(ms[1..], d + Delta(ms[0].mark), k - 1)
  }

  /** Mark `k` is the first one after which the depth, `d` at the start, is zero. */
  ghost predicate EndsAt(ms: seq<Hit>, d: int, k: nat) {
    && k < |ms|
    && Depth(ms, d, k + 1) == 0
    && forall j | 0 <= j <= k :: Depth(ms, d, j) > 0
  }

  /** `e` is the position of the first else met at depth one among the first `k` marks. */
  ghost predicate FirstElse(ms: seq<Hit>, d: int, k: nat, e: Option<nat>)
    requires k <= |ms|
  {
    match e
    case None => forall j | 0 <= j < k :: !(ms[j].mark.ElseMark? && Depth(ms, d, j) == 1)
    case Some(p) =>
      exists j | 0 <= j < k ::
        && ms[j] == Hit(p, ElseMark)
        && Depth(ms, d, j) == 1
        && forall h | 0 <= h < j :: !(ms[h].mark.ElseMark? && Depth(ms, d, h) == 1)
  }

  lemma DepthStep(ms: seq<Hit>, d: int, k: nat)
    requires 0 < k <= |ms|
    ensures Depth(ms, d, k) == Depth(ms[1..], d + Delta(ms[0].mark), k - 1)
  {
  }

  /** Prefixing a mark that leaves the depth positive shifts the end by one. */
  lemma EndsAtStep(ms: seq<Hit>, d: int, k: nat)
    requires d > 0 && ms != [] && d + Delta(ms[0].mark) > 0
    ensures EndsAt(ms, d, k) <==> k > 0 && EndsAt(ms[1..], d + Delta(ms[0].mark), k - 1)
  {
    if k < |ms| {
      if k == 0 {
        DepthStep(ms, d, 1);
      } else {
        DepthStep(ms, d, k + 1);
        var rest, d' := ms[1..], d + Delta(ms[0].mark);
        forall j | 0 <= j <= k - 1 ensures Depth(rest, d', j) == Depth(ms, d, j + 1) {
          DepthStep(ms, d, j + 1);
        }
        if EndsAt(rest, d', k - 1) {
          forall j | 0 <= j <= k ensures Depth(ms, d, j) > 0 {
            if j > 0 { DepthStep(ms, d, j); }
          }
        }
      }
    }
  }

  lemma FirstElseStep(ms: seq<Hit>, d: int, k: nat, e: Option<nat>)
    requires 0 < k <= |ms|
    requires FirstElse(ms[1..], d + Delta(ms[0].mark), k - 1, e)
    requires !(ms[0].mark.ElseMark? && d == 1)
    ensures FirstElse(ms, d, k, e)
  {
    var rest, d' := ms[1..], d + Delta(ms[0].mark);
    forall j | 0 <= j < k - 1 ensures Depth(rest, d', j) == Depth(ms, d, j + 1) && rest[j] == ms[j + 1] {
      DepthStep(ms, d, j + 1);
    }
    if e.Some? {
      var j :| 0 <= j < k - 1 && rest[j] == Hit(e.value, ElseMark) && Depth(rest, d', j) == 1
        && forall h | 0 <= h < j :: !(rest[h].mark.ElseMark? && Depth(rest, d', h) == 1);
      assert ms[j + 1] == Hit(e.value, ElseMark) && Depth(ms, d, j + 1) == 1;
      forall h | 0 <= h < j + 1 ensures !(ms[h].mark.ElseMark? && Depth(ms, d, h) == 1) {
        if h > 0 { assert rest[h - 1] == ms[h] && Depth(rest, d', h - 1) == Depth(ms, d, h); }
      }
    } else {
      forall h | 0 <= h < k ensures !(ms[h].mark.ElseMark? && Depth(ms, d, h) == 1) {
        if h > 0 { assert rest[h - 1] == ms[h] && Depth(rest, d', h - 1) == Depth(ms, d, h); }
      }
    }
  }

  /** What the search answers, in terms of the place `k` where the depth first returns to zero, if there is one. */
  ghost predicate CloseSpec(ms: seq<Hit>, tag: Tag, d: int, elseAt: Option<nat>, r: Result<Closing, TemplateError>, k: nat) {
    if EndsAt(ms, d, k) then
      match ms[k].mark
      case CloseMark(t) =>
        if t == tag then
          && r.Ok?
          && r.value.closeAt == ms[k].at
          && (if elseAt.Some? then r.value.elseAt == elseAt else FirstElse(ms, d, k, r.value.elseAt))
        else r == Err(Mismatched(tag, t))
      case _ => false
    else r == Err(Unclosed(tag)) && forall h :: !EndsAt(ms, d, h)
  }

  lemma {:induction false} CloseInSpec(ms: seq<Hit>, tag: Tag, d: nat, elseAt: Option<nat>) returns (k: nat)
    requires d > 0
    ensures CloseSpec(ms, tag, d, elseAt, CloseIn(ms, tag, d, elseAt), k)
  {
    if ms == [] {
      k := 0;
    } else {
      var m, rest := ms[0].mark, ms[1..];
      var d' := d + Delta(m);
      if d' == 0 {
        k := 0;
        DepthStep(ms, d, 1);
        assert EndsAt(ms, d, 0);
      } else {
        var e := if m.ElseMark? && d == 1 && elseAt.None? then Some(ms[0].at) else elseAt;
        var k' := CloseInSpec(rest, tag, d', e);
        k := k' + 1;
        var r := CloseIn(ms, tag, d, elseAt);
        assert r == CloseIn(rest, tag, d', e);
        forall h: nat ensures EndsAt(ms, d, h) <==> h > 0 && EndsAt(rest, d', h - 1) {
          EndsAtStep(ms, d, h);
        }
        if EndsAt(ms, d, k) && r.Ok? && elseAt.None? {
          assert ms[k] == rest[k'];
          if e.Some? {
            assert ms[0] == Hit(e.value, ElseMark) && Depth(ms, d, 0) == 1;
          } else {
            FirstElseStep(ms, d, k, r.value.elseAt);
          }
        }
      }
    }
  }

  /**
   * Whatever the marks, the search succeeds exactly when there is a first mark after which the depth
   * is zero and that mark closes the section's own kind; the span before it is balanced, and the else
   * it reports is the first one at depth one, if any.
   */
  lemma FindCloseExact(ms: seq<Hit>, tag: Tag)
    ensures var r := CloseIn(ms, tag, 1, None);
            && (r.Ok? <==> exists k: nat :: EndsAt(ms, 1, k) && ms[k].mark == CloseMark(tag))
            && (r == Err(Unclosed(tag)) <==> forall k: nat :: !EndsAt(ms, 1, k))
            && (forall k: nat | EndsAt(ms, 1, k) && r.Ok? ::
                  r.value.closeAt == ms[k].at && FirstElse(ms, 1, k, r.value.elseAt))
            && (forall k: nat | EndsAt(ms, 1, k) :: Depth(ms, 1, k) == 1 && ms[k].mark.CloseMark?)
  {
    var k := CloseInSpec(ms, tag, 1, None);
    if EndsAt(ms, 1, k) {
      DepthLast(ms, 1, k);
      forall h: nat | EndsAt(ms, 1, h) ensures h == k {
        EndUnique(ms, 1, h, k);
      }
    }
  }

  lemma EndUnique(ms: seq<Hit>, d: int, h: nat, k: nat)
    requires EndsAt(ms, d, h) && EndsAt(ms, d, k)
    ensures h == k
  {
  }

  lemma {:induction false} DepthLast(ms: seq<Hit>, d: int, k: nat)
    requires k < |ms|
    ensures Depth(ms, d, k + 1) == Depth(ms, d, k) + Delta(ms[k].mark)
  {
    DepthStep(ms, d, k + 1);
    if k > 0 {
      DepthStep(ms, d, k);
      DepthLast(ms[1..], d + Delta(ms[0].mark), k - 1);
    }
  }

  /** The marks come one after the other, without overlap, between `lo` and `hi`. */
  ghost predicate Ordered(ms: seq<Hit>, lo: int, hi: int) {
    ms == [] || (lo <= ms[0].at && ms[0].Next() <= hi && Ordered(ms[1..], ms[0].Next(), hi))
  }

  lemma {:induction false} MarksOrdered(src: string, i: nat)
    requires i <= |src|
    ensures Ordered(Marks(src, i), i, |src|)
    decreases |src| - i
  {
    var h := NextMark(src, i);
    if h.Some? {
      MarksOrdered(src, h.value.Next());
      assert Marks(src, i)[1..] == Marks(src, h.value.Next());
    }
  }

  lemma {:induction false} OrderedAt(ms: seq<Hit>, lo: int, hi: int, j: nat, k: nat)
    requires Ordered(ms, lo, hi)
    requires j <= k < |ms|
    ensures lo <= ms[j].at && ms[k].Next() <= hi
    ensures j < k ==> ms[j].Next() <= ms[k].at
  {
    if k > 0 {
      if j > 0 {
        OrderedAt(ms[1..], ms[0].Next(), hi, j - 1, k - 1);
      } else {
        OrderedAt(ms[1..], ms[0].Next(), hi, k - 1, k - 1);
      }
    }
  }

  /** The pieces the section renderer cuts out lie inside the source, in order. */
  lemma CloseInBounds(src: string, from: nat, tag: Tag)
    requires from <= |src|
    ensures var r := CloseIn(Marks(src, from), tag, 1, None);
            r.Ok? ==>
              && from <= r.value.closeAt
              && r.value.closeAt + |CloseText(tag)| <= |src|
              && (r.value.elseAt.Some? ==> from <= r.value.elseAt.value && r.value.elseAt.value + |ELSE| <= r.value.closeAt)
  {
    var ms := Marks(src, from);
    var r := CloseIn(ms, tag, 1, None);
    var k := CloseInSpec(ms, tag, 1, None);
    MarksOrdered(src, from);
    if r.Ok? {
      OrderedAt(ms, from, |src|, k, k);
      assert ms[k] == Hit(r.value.closeAt, CloseMark(tag));
      if r.value.elseAt.Some? {
        var j :| 0 <= j < k && ms[j] == Hit(r.value.elseAt.value, ElseMark);
        OrderedAt(ms, from, |src|, j, k);
        assert MarkText(ElseMark) == ELSE;
      }
    }
  }

  /** One match of the scanner's expression from `last` on. */
  method Exec(src: string, last: nat) returns (m: Option<Hit>)
    requires last <= |src|
    ensures m == None ==> Marks(src, last) == []
    ensures m.Some? ==> last < m.value.Next() <= |src| && Marks(src, last) == [m.value] + Marks(src, m.value.Next())
  {
    m := NextMark(src, last);
  }

  /** The scanner as the source runs it: one mark after another, counting the depth. */
  method FindClose(src: string, tag: Tag, from: nat) returns (r: Result<Closing, TemplateError>)
    requires from <= |src|
    ensures r == CloseOf(src, from, tag)
  {
    var depth: nat, elseAt: Option<nat>, last := 1, None, from;
    while true
      invariant last <= |src| && depth > 0
      invariant CloseIn(Marks(src, from), tag, 1, None) == CloseIn(Marks(src, last), tag, depth, elseAt)
      decreases |src| - last
    {
      var m := Exec(src, last);
      if m.None? {
        return Err(Unclosed(tag));
      }
      var Hit(at, mark) := m.value;
      last := m.value.Next();
      CloseInStep(m.value, Marks(src, last), tag, depth, elseAt);
      match mark {
        case OpenMark(_) =>
          depth := depth + 1;
        case ElseMark =>
          if depth == 1 && elseAt.None? {
            elseAt := Some(at);
          }
        case CloseMark(t) =>
          depth := depth - 1;
          if depth == 0 {
            return if t != tag then Err(Mismatched(tag, t)) else Ok(Closing(elseAt, at));
          }
      }
    }
  }
}
