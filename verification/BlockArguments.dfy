/** The argument of a block section, written and read back (src/notices/render.ts:108-115). */
module BlockArguments {
  import opened Basics
  import opened TemplateScan
  import opened TemplateEngine

  /** An attribute as a template writes it: a name, and a value unless the attribute is a flag. */
  datatype Attribute = Attribute(name: string, value: Option<string>)

  predicate WordChar(c: char, dots: bool) { IsWord(c) || (dots && c == '.') }

  predicate AllWord(s: string, dots: bool) { s != "" && forall i | 0 <= i < |s| :: WordChar(s[i], dots) }

  predicate WellFormed(a: Attribute) { AllWord(a.name, false) && (a.value.Some? ==> AllWord(a.value.value, true)) }

  function Written(a: Attribute): string { a.name + (if a.value.Some? then "=" + a.value.value else "") }

  function WrittenAll(attrs: seq<Attribute>): string {
    if attrs == [] then "" else " " + Written(attrs[0]) + WrittenAll(attrs[1..])
  }

  /** What the attributes say; a flag says `true`, and a later attribute overrides an earlier one. */
  function Said(attrs: seq<Attribute>): map<string, string> {
    if attrs == [] then map[]
    else map[attrs[0].name := if attrs[0].value.Some? then attrs[0].value.value else "true"] + Said(attrs[1..])
  }

  lemma {:induction false} WordLenIs(w: string, rest: string, dots: bool)
    requires forall i | 0 <= i < |w| :: WordChar(w[i], dots)
    requires rest == "" || !WordChar(rest[0], dots)
    ensures WordLen(w + rest, dots) == |w|
  {
    hide IsWord;
    if w == "" {
      assert w + rest == rest;
    } else {
      assert (w + rest)[1..] == w[1..] + rest;
      WordLenIs(w[1..], rest, dots);
    }
  }

  lemma Unfolded(s: string, f: Found)
    requires s != "" && NextAttribute(s) == f
    ensures Attributes(s) == (if f.value.Some? then map[f.name := f.value.value] else map[]) + Attributes(s[f.next..])
  {
    hide NextAttribute;
  }

  lemma SpaceSkipped(s: string)
    ensures Attributes(" " + s) == Attributes(s)
  {
    assert WordLen(" " + s, false) == 0;
    hide Attributes;
    Unfolded(" " + s, Found("", None, 1));
    assert (" " + s)[1..] == s;
  }

  lemma FlagRead(name: string, rest: string)
    requires AllWord(name, false) && (rest == "" || rest[0] == ' ')
    ensures Attributes(name + rest) == map[name := "true"] + Attributes(rest)
  {
    hide WordLen, Attributes;
    var s := name + rest;
    WordLenIs(name, rest, false);
    assert s[|name|..] == rest && s[..|name|] == name;
    Unfolded(s, Found(name, Some("true"), |name|));
  }

  lemma ValueRead(name: string, value: string, rest: string)
    requires AllWord(name, false) && AllWord(value, true) && (rest == "" || rest[0] == ' ')
    ensures Attributes(name + ("=" + (value + rest))) == map[name := value] + Attributes(rest)
  {
    hide WordLen, Attributes;
    var tail := "=" + (value + rest);
    var s, n := name + tail, |name|;
    WordLenIs(name, tail, false);
    WordLenIs(value, rest, true);
    assert s[n..] == tail && s[n] == '=';
    assert s[n + 1..] == tail[1..] == value + rest;
    SliceOfRest(s, n + 1, value, rest);
    assert s[..n] == name;
    Unfolded(s, Found(name, Some(value), n + 1 + |value|));
  }

  lemma SliceOfRest(s: string, k: nat, a: string, b: string)
    requires k <= |s| && s[k..] == a + b
    ensures k + |a| <= |s| && s[k..k + |a|] == a && s[k + |a|..] == b
  {
    assert s[k..k + |a|] == s[k..][..|a|];
    assert s[k + |a|..] == s[k..][|a|..];
  }

  lemma OneRead(a: Attribute, rest: string)
    requires WellFormed(a) && (rest == "" || rest[0] == ' ')
    ensures Attributes(Written(a) + rest) == map[a.name := if a.value.Some? then a.value.value else "true"] + Attributes(rest)
  {
    hide Attributes, AllWord;
    if a.value.Some? {
      assert Written(a) + rest == a.name + ("=" + (a.value.value + rest));
      ValueRead(a.name, a.value.value, rest);
    } else {
      assert Written(a) + rest == a.name + rest;
      FlagRead(a.name, rest);
    }
  }

  /** Reading written attributes gives back what they say. */
  lemma {:induction false} AttributesRead(attrs: seq<Attribute>)
    requires forall i | 0 <= i < |attrs| :: WellFormed(attrs[i])
    ensures Attributes(WrittenAll(attrs)) == Said(attrs)
  {
    hide Attributes, Written, WellFormed;
    if attrs == [] {
      NoneRead();
    } else {
      var rest := WrittenAll(attrs[1..]);
      assert " " + Written(attrs[0]) + rest == " " + (Written(attrs[0]) + rest);
      SpaceSkipped(Written(attrs[0]) + rest);
      OneRead(attrs[0], rest);
      AttributesRead(attrs[1..]);
    }
  }

  lemma NoneRead()
    ensures Attributes("") == map[]
  {
  }

  /**
   * A block's argument gives the block its id, and each layout fact the value its attribute was written
   * with, or else page 1, y 0, pt 10 and not bold.
   */
  lemma BlockArgumentReads(id: string, attrs: seq<Attribute>, inner: string)
    requires id != "" && '"' !in id && forall i | 0 <= i < |attrs| :: WellFormed(attrs[i])
    ensures var arg, said := "\"" + id + "\"" + WrittenAll(attrs), Said(attrs);
            && BlockId(arg) == Some(id)
            && var b := LayOut(id, Attributes(arg[|id| + 2..]), inner);
               && b.id == id
               && b.page == (if "page" in said then said["page"] else "1")
               && b.y == (if "y" in said then said["y"] else "0")
               && b.pt == (if "pt" in said then said["pt"] else "10")
               && (b.bold <==> "bold" in said && said["bold"] == "true")
  {
    hide Attributes, WrittenAll, Said, StripTags, Collapse, Trim, BlockId;
    IdReads(id, WrittenAll(attrs));
    AttributesRead(attrs);
  }

  lemma IdReads(id: string, rest: string)
    requires id != "" && '"' !in id
    ensures var arg := "\"" + id + "\"" + rest; BlockId(arg) == Some(id) && arg[|id| + 2..] == rest
  {
    hide IndexOf;
    var arg := "\"" + id + "\"" + rest;
    assert arg[1..] == id + "\"" + rest;
    IndexOfQuote(id, rest);
    assert arg[1..1 + |id|] == id;
    assert arg[|id| + 2..] == rest;
  }

  lemma {:induction false} IndexOfQuote(id: string, rest: string)
    requires '"' !in id
    ensures IndexOf(id + "\"" + rest, '"') == |id|
  {
    if id == "" {
      assert id + "\"" + rest == "\"" + rest;
    } else {
      assert (id + "\"" + rest)[1..] == id[1..] + "\"" + rest;
      IndexOfQuote(id[1..], rest);
    }
  }
}
