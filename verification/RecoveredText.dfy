/**
 * What the text of a notice says, compared with what its template and payload meant it to say
 * (src/notices/render.ts:36, 55-59, 114): the tags stripped are the emitted ones, whatever the payload,
 * and the entities decoded are the intended characters unless the intended text itself spells one.
 */
module RecoveredText {
  import opened TemplateScan
  import opened TemplateValues
  import opened TemplateEngine
  import opened TemplateTrees
  import opened NoticeText

  // ---- escaping

  /** One replacement of a character by a text, as `escapeHtml` chains four of them. */
  function ReplaceChar(s: string, c: char, to: string): string {
    if s == "" then "" else (if s[0] == c then to else [s[0]]) + ReplaceChar(s[1..], c, to)
  }

  lemma {:induction false} ReplaceCharConcat(a: string, b: string, c: char, to: string)
    ensures ReplaceChar(a + b, c, to) == ReplaceChar(a, c, to) + ReplaceChar(b, c, to)
  {
    if a == "" {
      assert a + b == b;
    } else {
      assert (a + b)[1..] == a[1..] + b;
      ReplaceCharConcat(a[1..], b, c, to);
    }
  }

  function FourPasses(s: string): string {
    ReplaceChar(ReplaceChar(ReplaceChar(ReplaceChar(s, '&', "&amp;"), '<', "&lt;"), '>', "&gt;"), '"', "&quot;")
  }

  /** A text without `c` is left alone. */
  lemma {:induction false} NothingToReplace(s: string, c: char, to: string)
    requires c !in s
    ensures ReplaceChar(s, c, to) == s
  {
    if s != "" { NothingToReplace(s[1..], c, to); }
  }

  lemma ReplaceOne(c: char, d: char, to: string)
    ensures ReplaceChar([c], d, to) == if c == d then to else [c]
  {
    assert [c][1..] == "" && to + "" == to;
  }

  lemma OneChar(c: char)
    ensures FourPasses([c]) == EscapeChar(c)
  {
    hide ReplaceChar;
    ReplaceOne(c, '&', "&amp;");
    ReplaceOne(c, '<', "&lt;");
    ReplaceOne(c, '>', "&gt;");
    ReplaceOne(c, '"', "&quot;");
    NothingToReplace("&amp;", '<', "&lt;");
    NothingToReplace("&amp;", '>', "&gt;");
    NothingToReplace("&amp;", '"', "&quot;");
    NothingToReplace("&lt;", '>', "&gt;");
    NothingToReplace("&lt;", '"', "&quot;");
    NothingToReplace("&gt;", '"', "&quot;");
  }

  /** Escaping character by character is what the four replacements one after the other come to. */
  lemma {:induction false} EscapeIsFourPasses(s: string)
    ensures FourPasses(s) == EscapeHtml(s)
  {
    if s != "" {
      EscapeIsFourPasses(s[1..]);
      OneChar(s[0]);
      assert s == [s[0]] + s[1..];
      FourPassesConcat([s[0]], s[1..]);
    }
  }

  lemma FourPassesConcat(a: string, b: string)
    ensures FourPasses(a + b) == FourPasses(a) + FourPasses(b)
  {
    hide ReplaceChar;
    ReplaceCharConcat(a, b, '&', "&amp;");
    var a1, b1 := ReplaceChar(a, '&', "&amp;"), ReplaceChar(b, '&', "&amp;");
    ReplaceCharConcat(a1, b1, '<', "&lt;");
    var a2, b2 := ReplaceChar(a1, '<', "&lt;"), ReplaceChar(b1, '<', "&lt;");
    ReplaceCharConcat(a2, b2, '>', "&gt;");
    ReplaceCharConcat(ReplaceChar(a2, '>', "&gt;"), ReplaceChar(b2, '>', "&gt;"), '"', "&quot;");
  }

  // ---- decoding

  /** A character that html shows as itself, or as its entity. */
  datatype Mark = Mark(c: char, escaped: bool)

  function Rank(c: char): nat { if c == '&' then 0 else if c == '<' then 1 else if c == '>' then 2 else if c == '"' then 3 else 4 }

  /** How a character shows when the entities before the `k`-th have been decoded. */
  function Shown(m: Mark, k: nat): string { if m.escaped && Rank(m.c) >= k then EscapeChar(m.c) else [m.c] }

  function Show(ms: seq<Mark>, k: nat): string { if ms == [] then "" else Shown(ms[0], k) + Show(ms[1..], k) }

  function CharsOf(ms: seq<Mark>): (s: string)
    ensures |s| == |ms|
  {
    if ms == [] then "" else [ms[0].c] + CharsOf(ms[1..])
  }

  function Marked(s: string, escaped: bool): (ms: seq<Mark>)
    ensures |ms| == |s|
  {
    if s == "" then [] else [Mark(s[0], escaped)] + Marked(s[1..], escaped)
  }

  predicate Ordinary(p: string) { forall i | 0 <= i < |p| :: Rank(p[i]) == 4 }

  /** A text of ordinary characters stands in the html exactly where it stands in the characters. */
  lemma {:induction false} BeginsShown(ms: seq<Mark>, k: nat, p: string)
    requires Ordinary(p)
    ensures Begins(Show(ms, k), p) <==> Begins(CharsOf(ms), p)
    ensures Begins(CharsOf(ms), p) ==> |p| <= |ms| && |p| <= |Show(ms, k)| && Show(ms, k)[|p|..] == Show(ms[|p|..], k)
  {
    if p != "" && ms != [] {
      var m, s := ms[0], Show(ms, k);
      assert s[0] == Shown(m, k)[0];
      if Shown(m, k) == [m.c] {
        assert s[1..] == Show(ms[1..], k);
        BeginsShown(ms[1..], k, p[1..]);
        if Begins(CharsOf(ms), p) {
          assert ms[1..][|p| - 1..] == ms[|p|..] && s[1..][|p| - 1..] == s[|p|..];
        }
      }
    }
  }

  function Entity(k: nat): string
    requires k < 4
  {
    if k == 0 then "&amp;" else if k == 1 then "&lt;" else if k == 2 then "&gt;" else "&quot;"
  }

  function Special(k: nat): char
    requires k < 4
  {
    if k == 0 then '&' else if k == 1 then '<' else if k == 2 then '>' else '"'
  }

  /** The marks with every text `pat` replaced by a plain character. */
  function Fused(ms: seq<Mark>, pat: string, c: char): seq<Mark>
    requires pat != ""
    decreases |ms|
  {
    if ms == [] then []
    else if Begins(CharsOf(ms), pat) then [Mark(c, false)] + Fused(ms[|pat|..], pat, c)
    else [ms[0]] + Fused(ms[1..], pat, c)
  }

  lemma {:induction false} CharsDrop(ms: seq<Mark>, n: nat)
    requires n <= |ms|
    ensures CharsOf(ms)[n..] == CharsOf(ms[n..])
  {
    if n > 0 {
      CharsDrop(ms[1..], n - 1);
      assert ms[1..][n - 1..] == ms[n..];
    }
  }

  lemma {:induction false} CharsFused(ms: seq<Mark>, pat: string, c: char)
    requires pat != ""
    ensures CharsOf(Fused(ms, pat, c)) == ReplaceAll(CharsOf(ms), pat, c)
    decreases |ms|
  {
    if ms != [] {
      if Begins(CharsOf(ms), pat) {
        CharsFused(ms[|pat|..], pat, c);
        CharsDrop(ms, |pat|);
      } else {
        CharsFused(ms[1..], pat, c);
      }
    }
  }

  /** A replacement passes over a stretch in which the pattern does not begin. */
  lemma {:induction false} PassOver(s: string, i: nat, j: nat, pat: string, c: char)
    requires pat != "" && i <= j <= |s| && forall h | i <= h < j :: !Begins(s[h..], pat)
    ensures ReplaceAll(s[i..], pat, c) == s[i..j] + ReplaceAll(s[j..], pat, c)
    decreases j - i
  {
    hide Begins;
    if i < j {
      PassOver(s, i + 1, j, pat, c);
      assert s[i..][1..] == s[i + 1..];
      assert s[i..j] == [s[i]] + s[i + 1..j];
    } else {
      assert s[i..j] == "";
    }
  }

  /** An entity other than the `k`-th is passed over whole. */
  lemma OtherEntity(j: nat, k: nat, b: string)
    requires j < 4 && k < 4 && j != k
    ensures ReplaceAll(Entity(j) + b, Entity(k), Special(k)) == Entity(j) + ReplaceAll(b, Entity(k), Special(k))
  {
    hide ReplaceAll;
    var a, s := Entity(j), Entity(j) + b;
    forall i | 0 <= i < |a| ensures !Begins(s[i..], Entity(k)) {
      assert s[i] == a[i];
      if i == 0 {
        assert s[0..][1..][0] == a[1];
      }
    }
    PassOver(s, 0, |a|, Entity(k), Special(k));
    assert s[0..] == s && s[0..|a|] == a && s[|a|..] == b;
  }

  lemma SameEntity(k: nat, b: string)
    requires k < 4
    ensures ReplaceAll(Entity(k) + b, Entity(k), Special(k)) == [Special(k)] + ReplaceAll(b, Entity(k), Special(k))
  {
    var s := Entity(k) + b;
    BeginsPrefix(s, Entity(k));
    assert s[..|Entity(k)|] == Entity(k) && s[|Entity(k)|..] == b;
  }

  lemma OtherChar(c: char, k: nat, b: string)
    requires k < 4 && c != '&'
    ensures ReplaceAll([c] + b, Entity(k), Special(k)) == [c] + ReplaceAll(b, Entity(k), Special(k))
  {
    assert ([c] + b)[1..] == b;
  }

  /** Every ampersand is escaped, or begins one of the upper-cased entities, which are not decoded. */
  ghost predicate AmpsKnown(ms: seq<Mark>) {
    forall i | 0 <= i < |ms| && ms[i].c == '&' && !ms[i].escaped :: i + 1 < |ms| && ms[i + 1].c in "ALGQ"
  }

  lemma AmpsConcat(a: seq<Mark>, b: seq<Mark>)
    requires AmpsKnown(a) && AmpsKnown(b)
    ensures AmpsKnown(a + b)
  {
  }

  /** An ampersand in front of a capital begins no entity. */
  lemma LoneAmp(ms: seq<Mark>)
    requires AmpsKnown(ms) && ms != [] && ms[0] == Mark('&', false)
    ensures ReplaceAll(['&'] + Show(ms[1..], 0), "&amp;", '&') == ['&'] + ReplaceAll(Show(ms[1..], 0), "&amp;", '&')
  {
    var b := Show(ms[1..], 0);
    assert ms[1].c in "ALGQ";
    assert b[0] == ms[1].c;
    assert (['&'] + b)[1..] == b && "&amp;"[1..] == "amp;";
    assert !Begins(b, "amp;");
  }

  /** The first replacement decodes exactly the escaped ampersands. */
  lemma {:induction false} DecodeAmps(ms: seq<Mark>)
    requires AmpsKnown(ms)
    ensures ReplaceAll(Show(ms, 0), "&amp;", '&') == Show(ms, 1)
  {
    hide ReplaceAll;
    if ms == [] {
      EmptyReplaced("&amp;", '&');
    } else {
      var m, b := ms[0], Show(ms[1..], 0);
      RestKnown(ms);
      DecodeAmps(ms[1..]);
      assert Entity(0) == "&amp;" && Special(0) == '&';
      if m == Mark('&', false) {
        LoneAmp(ms);
      } else if Shown(m, 0) == [m.c] {
        OtherChar(m.c, 0, b);
      } else if m.c == '&' {
        SameEntity(0, b);
      } else {
        OtherEntity(Rank(m.c), 0, b);
      }
    }
  }

  lemma RestKnown(ms: seq<Mark>)
    requires AmpsKnown(ms) && ms != []
    ensures AmpsKnown(ms[1..])
  {
    forall i | 0 <= i < |ms[1..]| && ms[1..][i].c == '&' && !ms[1..][i].escaped ensures i + 1 < |ms[1..]| && ms[1..][i + 1].c in "ALGQ" {
      assert ms[i + 1] == ms[1..][i];
    }
  }

  lemma EmptyReplaced(pat: string, c: char)
    requires pat != ""
    ensures ReplaceAll("", pat, c) == ""
  {
  }

  /** A later replacement decodes the escaped characters of its kind, and whatever the text itself spells like their entity. */
  lemma {:induction false} DecodeLater(ms: seq<Mark>, k: nat)
    requires 1 <= k < 4
    ensures ReplaceAll(Show(ms, k), Entity(k), Special(k)) == Show(Fused(ms, Entity(k), Special(k)), k + 1)
    decreases |ms|
  {
    hide ReplaceAll;
    if ms == [] {
      EmptyReplaced(Entity(k), Special(k));
    } else {
      var m, rest := ms[0], ms[1..];
      DecodeLater(rest, k);
      if m.c == '&' {
        AmpStep(ms, k);
        if Begins(CharsOf(ms), Entity(k)) {
          DecodeLater(ms[|Entity(k)|..], k);
        }
      } else if Shown(m, k) == [m.c] {
        OtherChar(m.c, k, Show(rest, k));
      } else if m.c == Special(k) {
        SameEntity(k, Show(rest, k));
      } else {
        OtherEntity(Rank(m.c), k, Show(rest, k));
      }
    }
  }

  lemma AmpStep(ms: seq<Mark>, k: nat)
    requires 1 <= k < 4 && ms != [] && ms[0].c == '&'
    ensures var s, e := Show(ms, k), Entity(k);
            && (Begins(CharsOf(ms), e) ==> |e| <= |ms| && ReplaceAll(s, e, Special(k)) == [Special(k)] + ReplaceAll(Show(ms[|e|..], k), e, Special(k)))
            && (!Begins(CharsOf(ms), e) ==> ReplaceAll(s, e, Special(k)) == ['&'] + ReplaceAll(Show(ms[1..], k), e, Special(k)))
  {
    hide Show, CharsOf;
    var s, e := Show(ms, k), Entity(k);
    AmpShown(ms, k);
    BeginsShown(ms[1..], k, e[1..]);
    if Begins(CharsOf(ms), e) {
      assert ms[1..][|e| - 1..] == ms[|e|..] && s[1..][|e| - 1..] == s[|e|..];
    }
  }

  lemma AmpShown(ms: seq<Mark>, k: nat)
    requires 1 <= k && ms != [] && ms[0].c == '&'
    ensures Show(ms, k) == ['&'] + Show(ms[1..], k) && Show(ms, k)[1..] == Show(ms[1..], k)
    ensures CharsOf(ms) == ['&'] + CharsOf(ms[1..]) && CharsOf(ms)[1..] == CharsOf(ms[1..])
  {
  }

  lemma {:induction false} AllShown(ms: seq<Mark>)
    ensures Show(ms, 5) == CharsOf(ms) && Show(ms, 4) == CharsOf(ms)
  {
    if ms != [] { AllShown(ms[1..]); }
  }

  /** What decoding does to a text beyond undoing its escaping. */
  function Undone(t: string): string {
    ReplaceAll(ReplaceAll(ReplaceAll(t, "&lt;", '<'), "&gt;", '>'), "&quot;", '"')
  }

  lemma DecodeShown(ms: seq<Mark>)
    requires AmpsKnown(ms)
    ensures Decode(Show(ms, 0)) == Undone(CharsOf(ms))
  {
    hide Show, CharsOf, Fused, ReplaceAll, AmpsKnown;
    DecodeAmps(ms);
    DecodeLater(ms, 1);
    CharsFused(ms, "&lt;", '<');
    var ms2 := Fused(ms, "&lt;", '<');
    DecodeLater(ms2, 2);
    CharsFused(ms2, "&gt;", '>');
    var ms3 := Fused(ms2, "&gt;", '>');
    DecodeLater(ms3, 3);
    CharsFused(ms3, "&quot;", '"');
    AllShown(Fused(ms3, "&quot;", '"'));
  }

  // ---- pieces of html

  /**
   * Literal text, the text of a value before escaping, an emitted tag, and the text of a value that is
   * upper-cased after escaping, with how it shows and how it is meant to read.
   */
  datatype Piece = Lit(s: string) | Val(s: string) | Emitted(tag: string) | Shouted(value: string, shown: string, meant: string)

  function PieceHtml(p: Piece): string {
    match p
    case Lit(s) => s
    case Val(s) => EscapeHtml(s)
    case Emitted(tag) => tag
    case Shouted(_, shown, _) => shown
  }

  function HtmlOf(ps: seq<Piece>): string {
    if ps == [] then "" else PieceHtml(ps[0]) + HtmlOf(ps[1..])
  }

  /** The html with the emitted tags, and nothing else, turned into spaces. */
  function WithoutTags(ps: seq<Piece>): string {
    if ps == [] then "" else (if ps[0].Emitted? then " " else PieceHtml(ps[0])) + WithoutTags(ps[1..])
  }

  /** The text the pieces are meant to read as. */
  function PieceMeant(p: Piece): string {
    match p
    case Lit(s) => s
    case Val(s) => s
    case Emitted(_) => " "
    case Shouted(_, _, meant) => meant
  }

  function Intended(ps: seq<Piece>): string {
    if ps == [] then "" else PieceMeant(ps[0]) + Intended(ps[1..])
  }

  /** The text before any entity it spells is decoded: as intended, but upper-cased values as they show. */
  function PieceLeft(p: Piece): string { if p.Shouted? then p.shown else PieceMeant(p) }

  function Left(ps: seq<Piece>): string {
    if ps == [] then "" else PieceLeft(ps[0]) + Left(ps[1..])
  }

  predicate CleanText(s: string) { '<' !in s && '&' !in s }

  predicate WholeTag(t: string) {
    |t| >= 3 && t[0] == '<' && t[|t| - 1] == '>' && '>' !in t[1..|t| - 1]
  }

  /** The characters that are escaped. */
  predicate IsSpecial(c: char) { c in "&<>\"" }

  predicate NoSpecial(s: string) { forall i | 0 <= i < |s| :: !IsSpecial(s[i]) }

  /** Every ampersand has one of the entities' initials behind it, as a capital. */
  predicate CapitalAmps(s: string) { forall i | 0 <= i < |s| && s[i] == '&' :: i + 1 < |s| && s[i + 1] in "ALGQ" }

  predicate IsLower(c: char) { 'a' <= c <= 'z' }

  predicate IsSolid(c: char) { !IsSpace(c) }

  predicate CleanPiece(p: Piece) {
    match p
    case Lit(s) => CleanText(s)
    case Val(_) => true
    case Emitted(tag) => WholeTag(tag)
    case Shouted(value, shown, meant) =>
      && '<' !in shown && CapitalAmps(shown)
      && Count(IsLower, shown) == Count(IsLower, meant)
      && (if NoSpecial(value) then shown == meant else Count(IsSolid, shown) > Count(IsSolid, meant))
  }

  predicate Clean(ps: seq<Piece>) { forall i | 0 <= i < |ps| :: CleanPiece(ps[i]) }

  /** No upper-cased value holds a character that is escaped. */
  predicate ShoutsPlain(ps: seq<Piece>) { forall i | 0 <= i < |ps| && ps[i].Shouted? :: NoSpecial(ps[i].value) }

  /** How many characters of a kind a text has. */
  function Count(p: char -> bool, s: string): nat { if s == "" then 0 else (if p(s[0]) then 1 else 0) + Count(p, s[1..]) }

  lemma {:induction false} StripOver(s: string, i: nat, j: nat)
    requires i <= j <= |s| && forall h | i <= h < j :: s[h] != '<'
    ensures StripTags(s[i..]) == s[i..j] + StripTags(s[j..])
    decreases j - i
  {
    hide IndexOf;
    if i < j {
      StripOver(s, i + 1, j);
      assert s[i..][1..] == s[i + 1..];
      assert s[i..j] == [s[i]] + s[i + 1..j];
    } else {
      assert s[i..j] == "";
    }
  }

  lemma StripText(s: string, rest: string)
    requires '<' !in s
    ensures StripTags(s + rest) == s + StripTags(rest)
  {
    hide StripTags;
    var t := s + rest;
    StripOver(t, 0, |s|);
    assert t[0..] == t && t[0..|s|] == s && t[|s|..] == rest;
  }

  lemma StripTag(t: string, rest: string)
    requires WholeTag(t)
    ensures StripTags(t + rest) == " " + StripTags(rest)
  {
    hide IndexOf;
    var s := t + rest;
    assert s[1..][|t| - 2] == '>';
    forall j | 0 <= j < |t| - 2 ensures s[1..][j] != '>' {
      assert s[1..][j] == t[1..|t| - 1][j];
    }
    assert s[|t|..] == rest;
  }

  lemma {:induction false} EscapedHasNoTag(s: string)
    ensures '<' !in EscapeHtml(s)
  {
    if s != "" { EscapedHasNoTag(s[1..]); }
  }

  /** The tags stripped from the html are exactly the emitted ones, whatever the values hold. */
  lemma {:induction false} TagsStripped(ps: seq<Piece>)
    requires Clean(ps)
    ensures StripTags(HtmlOf(ps)) == WithoutTags(ps)
  {
    hide StripTags, WholeTag, EscapeHtml, CapitalAmps, NoSpecial, Count;
    if ps == [] {
      NothingStripped();
    } else {
      TagsStripped(ps[1..]);
      assert CleanPiece(ps[0]);
      match ps[0]
      case Lit(s) => StripText(s, HtmlOf(ps[1..]));
      case Val(s) => EscapedHasNoTag(s); StripText(EscapeHtml(s), HtmlOf(ps[1..]));
      case Emitted(tag) => StripTag(tag, HtmlOf(ps[1..]));
      case Shouted(_, shown, _) => StripText(shown, HtmlOf(ps[1..]));
    }
  }

  lemma NothingStripped()
    ensures StripTags("") == ""
  {
  }

  // ---- pieces as marks

  function PieceMarks(p: Piece): seq<Mark> {
    match p
    case Lit(s) => Marked(s, false)
    case Val(s) => Marked(s, true)
    case Emitted(_) => [Mark(' ', false)]
    case Shouted(_, shown, _) => Marked(shown, false)
  }

  function MarksOf(ps: seq<Piece>): seq<Mark> {
    if ps == [] then []
    else PieceMarks(ps[0]) + MarksOf(ps[1..])
  }

  lemma ShowCons(m: Mark, ms: seq<Mark>, k: nat)
    ensures Show([m] + ms, k) == Shown(m, k) + Show(ms, k) && CharsOf([m] + ms) == [m.c] + CharsOf(ms)
  {
    hide Shown;
    assert ([m] + ms)[1..] == ms;
  }

  lemma {:induction false} ShowConcat(a: seq<Mark>, b: seq<Mark>, k: nat)
    ensures Show(a + b, k) == Show(a, k) + Show(b, k) && CharsOf(a + b) == CharsOf(a) + CharsOf(b)
  {
    hide Show, Shown, CharsOf;
    if a == [] {
      NothingShown(k);
      assert a + b == b;
    } else {
      ShowConcat(a[1..], b, k);
      assert a == [a[0]] + a[1..] && a + b == [a[0]] + (a[1..] + b);
      ShowCons(a[0], a[1..], k);
      ShowCons(a[0], a[1..] + b, k);
    }
  }

  lemma {:induction false} MarkedAt(s: string, escaped: bool, i: nat)
    requires i < |s|
    ensures Marked(s, escaped)[i] == Mark(s[i], escaped)
  {
    if i > 0 { MarkedAt(s[1..], escaped, i - 1); }
  }

  lemma {:induction false} MarkedShows(s: string, escaped: bool)
    ensures Show(Marked(s, escaped), 0) == if escaped then EscapeHtml(s) else s
    ensures CharsOf(Marked(s, escaped)) == s
  {
    hide Show, CharsOf, EscapeChar;
    if s == "" {
      NothingShown(0);
    } else {
      MarkedShows(s[1..], escaped);
      ShowCons(Mark(s[0], escaped), Marked(s[1..], escaped), 0);
    }
  }

  lemma PieceShows(p: Piece)
    requires CleanPiece(p)
    ensures Show(PieceMarks(p), 0) == if p.Emitted? then " " else PieceHtml(p)
    ensures CharsOf(PieceMarks(p)) == PieceLeft(p) && AmpsKnown(PieceMarks(p))
  {
    hide Show, CharsOf, Marked, EscapeHtml, WholeTag, Count, NoSpecial;
    match p
    case Lit(s) => MarkedShows(s, false); MarkedAll(s, false);
    case Val(s) => MarkedShows(s, true); MarkedAll(s, true);
    case Emitted(_) => SpaceShown();
    case Shouted(_, shown, _) => MarkedShows(shown, false); MarkedAll(shown, false);
  }

  lemma {:induction false} PiecesShow(ps: seq<Piece>)
    requires Clean(ps)
    ensures Show(MarksOf(ps), 0) == WithoutTags(ps) && CharsOf(MarksOf(ps)) == Left(ps) && AmpsKnown(MarksOf(ps))
  {
    hide Show, CharsOf, PieceMarks, PieceHtml, PieceLeft, CleanPiece, AmpsKnown;
    if ps == [] {
      NothingShown(0);
    } else {
      PiecesShow(ps[1..]);
      PieceShows(ps[0]);
      ShowConcat(PieceMarks(ps[0]), MarksOf(ps[1..]), 0);
      AmpsConcat(PieceMarks(ps[0]), MarksOf(ps[1..]));
    }
  }

  lemma MarkedAll(s: string, escaped: bool)
    ensures forall i | 0 <= i < |s| :: Marked(s, escaped)[i] == Mark(s[i], escaped)
  {
    forall i | 0 <= i < |s| ensures Marked(s, escaped)[i] == Mark(s[i], escaped) { MarkedAt(s, escaped, i); }
  }

  lemma NothingShown(k: nat)
    ensures Show([], k) == "" && CharsOf([]) == "" && AmpsKnown([])
  {
  }

  lemma SpaceShown()
    ensures Show([Mark(' ', false)], 0) == " " && CharsOf([Mark(' ', false)]) == " "
  {
  }

  // ---- when the text reads as intended

  lemma {:induction false} CountConcat(p: char -> bool, a: string, b: string)
    ensures Count(p, a + b) == Count(p, a) + Count(p, b)
  {
    if a == "" {
      assert a + b == b;
    } else {
      CountConcat(p, a[1..], b);
      assert (a + b)[1..] == a[1..] + b;
    }
  }

  lemma CountOne(p: char -> bool, c: char)
    ensures Count(p, [c]) == if p(c) then 1 else 0
  {
    assert [c][1..] == "";
  }

  /** Counting ignores white space, so collapsing and trimming never change the count. */
  ghost predicate IgnoresSpace(p: char -> bool) { forall c | IsSpace(c) :: !p(c) }

  lemma {:induction false} CountCollapse(p: char -> bool, s: string)
    requires IgnoresSpace(p)
    ensures Count(p, Collapse(s)) == Count(p, s)
  {
    if s != "" {
      CountCollapse(p, s[1..]);
      if !IsSpace(s[0]) {
        CountOne(p, s[0]);
        CountConcat(p, [s[0]], Collapse(s[1..]));
      } else {
        CountOne(p, ' ');
        CountConcat(p, " ", Collapse(s[1..]));
      }
    }
  }

  lemma {:induction false} CountTrimStart(p: char -> bool, s: string)
    requires IgnoresSpace(p)
    ensures Count(p, TrimStart(s)) == Count(p, s)
  {
    hide IsSpace;
    if s != "" { CountTrimStart(p, s[1..]); }
  }

  lemma {:induction false} CountTrimEnd(p: char -> bool, s: string)
    requires IgnoresSpace(p)
    ensures Count(p, TrimEnd(s)) == Count(p, s)
  {
    hide IsSpace;
    if s != "" && IsSpace(s[|s| - 1]) {
      CountTrimEnd(p, s[..|s| - 1]);
      CountConcat(p, s[..|s| - 1], [s[|s| - 1]]);
      CountOne(p, s[|s| - 1]);
      assert s == s[..|s| - 1] + [s[|s| - 1]];
    }
  }

  lemma CountTidy(p: char -> bool, s: string)
    requires IgnoresSpace(p)
    ensures Count(p, Trim(Collapse(s))) == Count(p, s)
  {
    hide Count, Collapse, TrimStart, TrimEnd, IgnoresSpace;
    CountCollapse(p, s);
    CountTrimStart(p, Collapse(s));
    CountTrimEnd(p, TrimStart(Collapse(s)));
  }

  ghost predicate Contains(s: string, pat: string) { exists i | 0 <= i <= |s| :: Begins(s[i..], pat) }

  lemma ContainsRest(s: string, pat: string)
    requires s != "" && !Begins(s, pat)
    ensures Contains(s, pat) <==> Contains(s[1..], pat)
  {
    hide Begins;
    if Contains(s, pat) {
      var i :| 0 <= i <= |s| && Begins(s[i..], pat);
      assert s[0..] == s;
      assert i > 0;
      assert s[1..][i - 1..] == s[i..];
    }
    if Contains(s[1..], pat) {
      var i :| 0 <= i <= |s[1..]| && Begins(s[1..][i..], pat);
      assert s[1..][i..] == s[i + 1..];
    }
  }

  lemma ContainsHere(s: string, pat: string)
    requires Begins(s, pat)
    ensures Contains(s, pat)
  {
    assert s[0..] == s;
  }

  lemma NotInEmpty(pat: string)
    requires pat != ""
    ensures !Contains("", pat)
  {
  }

  /** A replacement leaves a text without the pattern alone, and loses characters of every kind the pattern has two of. */
  lemma {:induction false} ReplaceAllExact(p: char -> bool, s: string, pat: string, c: char)
    requires pat != "" && Count(p, pat) > 1
    ensures !Contains(s, pat) ==> ReplaceAll(s, pat, c) == s
    ensures Count(p, ReplaceAll(s, pat, c)) <= Count(p, s)
    ensures Contains(s, pat) ==> Count(p, ReplaceAll(s, pat, c)) < Count(p, s)
    decreases |s|
  {
    hide Begins, Contains;
    if s == "" {
      NotInEmpty(pat);
    } else if Begins(s, pat) {
      ContainsHere(s, pat);
      BeginsPrefix(s, pat);
      assert s == pat + s[|pat|..];
      CountConcat(p, pat, s[|pat|..]);
      ReplaceAllExact(p, s[|pat|..], pat, c);
      CountOne(p, c);
      CountConcat(p, [c], ReplaceAll(s[|pat|..], pat, c));
    } else {
      ContainsRest(s, pat);
      ReplaceAllExact(p, s[1..], pat, c);
      CountOne(p, s[0]);
      CountConcat(p, [s[0]], ReplaceAll(s[1..], pat, c));
    }
  }

  /** The text spells an entity that decoding undoes after the ampersands. */
  ghost predicate Spells(t: string) {
    Contains(t, "&lt;") || Contains(t, "&gt;") || Contains(t, "&quot;")
  }

  lemma {:induction false} AllCount(p: char -> bool, s: string)
    requires forall i | 0 <= i < |s| :: p(s[i])
    ensures Count(p, s) == |s|
  {
    if s != "" { AllCount(p, s[1..]); }
  }

  function EntityName(k: nat): string
    requires k < 4
  {
    if k == 0 then "amp" else if k == 1 then "lt" else if k == 2 then "gt" else "quot"
  }

  /** Every entity has at least two small letters. */
  lemma EntitySmall(k: nat)
    requires k < 4
    ensures Count(IsLower, Entity(k)) > 1
  {
    hide Count;
    var name := EntityName(k);
    assert Entity(k) == "&" + name + ";";
    CountConcat(IsLower, "&", name);
    CountConcat(IsLower, "&" + name, ";");
    AllCount(IsLower, name);
  }

  /** Decoding leaves a text that spells no entity alone, and costs any other small letters. */
  lemma UndoneExact(t: string)
    ensures !Spells(t) ==> Undone(t) == t
    ensures Spells(t) ==> Count(IsLower, Undone(t)) < Count(IsLower, t)
  {
    hide ReplaceAll, Count, Contains;
    EntitySmall(1); EntitySmall(2); EntitySmall(3);
    assert Entity(1) == "&lt;" && Entity(2) == "&gt;" && Entity(3) == "&quot;";
    ReplaceAllExact(IsLower, t, "&lt;", '<');
    var t1 := ReplaceAll(t, "&lt;", '<');
    ReplaceAllExact(IsLower, t1, "&gt;", '>');
    ReplaceAllExact(IsLower, ReplaceAll(t1, "&gt;", '>'), "&quot;", '"');
  }

  /** Upper-cased values show as meant, or with more characters, and never with other small letters than meant. */
  lemma {:induction false} LeftExact(ps: seq<Piece>)
    requires Clean(ps)
    ensures ShoutsPlain(ps) ==> Left(ps) == Intended(ps)
    ensures Count(IsLower, Left(ps)) == Count(IsLower, Intended(ps))
    ensures Count(IsSolid, Left(ps)) >= Count(IsSolid, Intended(ps))
    ensures !ShoutsPlain(ps) ==> Count(IsSolid, Left(ps)) > Count(IsSolid, Intended(ps))
  {
    hide Count, IsLower, IsSolid, NoSpecial, CapitalAmps, WholeTag, CleanText;
    if ps != [] {
      var p, rest := ps[0], ps[1..];
      LeftExact(rest);
      assert CleanPiece(p);
      CountConcat(IsLower, PieceLeft(p), Left(rest));
      CountConcat(IsLower, PieceMeant(p), Intended(rest));
      CountConcat(IsSolid, PieceLeft(p), Left(rest));
      CountConcat(IsSolid, PieceMeant(p), Intended(rest));
      ShoutsCons(ps);
    }
  }

  lemma ShoutsCons(ps: seq<Piece>)
    requires ps != []
    ensures ShoutsPlain(ps) <==> (ps[0].Shouted? ==> NoSpecial(ps[0].value)) && ShoutsPlain(ps[1..])
  {
    hide NoSpecial;
    if ShoutsPlain(ps[1..]) {
      forall i | 0 < i < |ps| && ps[i].Shouted? ensures ps[i] == ps[1..][i - 1] {
      }
    }
  }

  /**
   * The text of any clean html is what the pieces leave with whatever spells an entity decoded.  Up to white
   * space it reads as intended exactly when the intended text spells none and no upper-cased value holds a
   * character that is escaped.
   */
  lemma TextExact(ps: seq<Piece>)
    requires Clean(ps)
    ensures PlainText(HtmlOf(ps)) == Trim(Collapse(Undone(Left(ps))))
    ensures PlainText(HtmlOf(ps)) == Trim(Collapse(Intended(ps))) <==> !Spells(Intended(ps)) && ShoutsPlain(ps)
  {
    hide StripTags, Decode, Trim, Collapse, Undone, Spells, Clean, Show, MarksOf, AmpsKnown, ShoutsPlain, Count;
    TagsStripped(ps);
    PiecesShow(ps);
    DecodeShown(MarksOf(ps));
    LeftExact(ps);
    var t, left := Intended(ps), Left(ps);
    UndoneExact(left);
    CountTidy(IsLower, t);
    CountTidy(IsLower, Undone(left));
    CountTidy(IsSolid, t);
    CountTidy(IsSolid, Undone(left));
  }

  /** A value that spells an entity is not read back: `&lt;` reads `<`. */
  lemma SpelledNotRead()
    ensures PlainText(HtmlOf([Val("&lt;")])) != Trim(Collapse("&lt;"))
  {
    hide PlainText, Trim, Collapse, HtmlOf;
    var p := Val("&lt;");
    assert [p][1..] == [] && "&lt;" + "" == "&lt;";
    BeginsPrefix("&lt;", "&lt;");
    ContainsHere("&lt;", "&lt;");
    TextExact([p]);
  }
}
