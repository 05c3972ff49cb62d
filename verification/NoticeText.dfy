/** A notice's html as text: tags stripped, entities decoded, white space collapsed (src/notices/render.ts:55-60). */
module NoticeText {
  import opened Basics
  import opened TemplateScan
  import opened TemplateValues
  import opened TemplateEngine

  /** Every occurrence of `pat` replaced by `c`, leftmost first. */
  function ReplaceAll(s: string, pat: string, c: char): string
    requires pat != ""
    decreases |s|
  {
    if s == "" then ""
    else if Begins(s, pat) then [c] + ReplaceAll(s[|pat|..], pat, c)
    else [s[0]] + ReplaceAll(s[1..], pat, c)
  }

  /** The source decodes `&amp;` first. */
  function Decode(s: string): string {
    ReplaceAll(ReplaceAll(ReplaceAll(ReplaceAll(s, "&amp;", '&'), "&lt;", '<'), "&gt;", '>'), "&quot;", '"')
  }

  function PlainText(html: string): string { Trim(Collapse(Decode(StripTags(html)))) }

  /** A rendered notice: its html, its text, its blocks. */
  datatype Notice = Notice(html: string, text: string, blocks: seq<RenderedBlock>)

  function Render(source: string, payload: Value, formats: Formats): Result<Notice, TemplateError> {
    match SectionFrom(source, 0, Scope([Frame(payload, None)], formats))
    case Err(e) => Err(e)
    case Ok(out) => Ok(Notice(out.html, PlainText(out.html), out.blocks))
  }

  /** `render` as the source runs it: a fresh list of blocks, one call of the section renderer, then the text. */
  method RenderNotice(source: string, payload: Value, formats: Formats) returns (r: Result<Notice, TemplateError>)
    ensures r == Render(source, payload, formats)
  {
    hide SectionFrom, PlainText;
    var blocks := new BlockList();
    var scope := Scope([Frame(payload, None)], formats);
    var html := RenderSection(source, scope, blocks);
    match html {
      case Err(e) => return Err(e);
      case Ok(h) =>
        ghost var out := SectionFrom(source, 0, scope).value;
        assert [] + out.blocks == out.blocks;
        return Ok(Notice(h, PlainText(h), blocks.items));
    }
  }
}
