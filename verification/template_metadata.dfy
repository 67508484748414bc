/**
 * `MetadataExtractor.extract_html_template_metadata`: for a `.jinja` file, five
 * scans over the template text; for any other file type, the defaults. The
 * patterns, each a matcher here:
 *   extends    `{%\s*extends\s+['"](.+?)['"]`  (first match only)
 *   blocks     `{%\s*block\s+(\w+)\s*%}`
 *   includes   `{%\s*include\s+['"](.+?)['"]`
 *   macros     `{%\s*macro\s+(\w+)\s*\(`
 *   variables  `{{(.+?)}}`  (each body stripped)
 */
module TemplateMetadata {
  import opened Wrappers
  import opened PyStr
  import opened Values
  import opened RegexScan

  predicate IsQuote(c: char) {
    c == '\'' || c == '"'
  }

  predicate AtQuote(t: string) {
    t != [] && IsQuote(t[0])
  }

  predicate AtCloseBraces(t: string) {
    StartsWith(t, "}}")
  }

  /**
   * `{%`, optional whitespace, the keyword, then `s[k..]` for the position `k`
   * after the keyword, when all of that is there.
   */
  function AfterKeyword(s: string, i: nat, keyword: string): (k: Option<nat>)
    ensures k.Some? ==> (i + 2 + |keyword| <= k.value <= |s| && StartsWith(s[i..], "{%")
      && s[k.value - |keyword|..k.value] == keyword)
  {
    if i > |s| || !StartsWith(s[i..], "{%") then None
    else
      var p := i + 2 + Run(s, i + 2, IsSpace);
      if !StartsWith(s[p..], keyword) then None
      else
        assert s[p..p + |keyword|] == s[p..][..|keyword|];
        Some(p + |keyword|)
  }

  /**
   * `['"](.+?)['"]` at `j`: after the opening quote, `.+?` takes one character
   * whatever it is, then stops at the first quote of either kind; no line break
   * may lie in between.
   */
  function QuotedAt(s: string, j: nat): (r: Option<Match<string>>)
    ensures r.Some? ==> var target := r.value.value;
      target != [] && '\n' !in target && r.value.end == j + |target| + 2 <= |s|
      && IsQuote(s[j]) && s[j + 1..j + 1 + |target|] == target && IsQuote(s[j + 1 + |target|])
      && (forall k :: 1 <= k < |target| ==> !IsQuote(target[k]))
  {
    if j + 1 >= |s| || !IsQuote(s[j]) || s[j + 1] == '\n' then None
    else
      match Lazy(s, j + 2, AtQuote, false)
      case None => None
      case Some(e) =>
        if e == |s| then None
        else
          var target := s[j + 1..e];
          assert forall k :: 1 <= k < |target| ==> target[k] == s[j + 1 + k] == s[j + 1 + k..][0];
          Some(Match(e + 1, target))
  }

  /** A target free of quotes and line breaks, between quotes, is read back unchanged. */
  lemma QuotedRoundTrip(s: string, j: nat, target: string)
    requires j + |target| + 2 <= |s| && IsQuote(s[j]) && IsQuote(s[j + 1 + |target|])
    requires s[j + 1..j + 1 + |target|] == target
    requires target != [] && forall k :: 0 <= k < |target| ==> !IsQuote(target[k]) && target[k] != '\n'
    ensures QuotedAt(s, j) == Some(Match(j + |target| + 2, target))
  {
    var e := j + 1 + |target|;
    assert s[j + 1] == target[0];
    assert AtQuote(s[e..]);
    forall t | j + 2 <= t < e
      ensures !AtQuote(s[t..]) && s[t] != '\n'
    {
      assert s[t] == target[t - j - 1];
    }
    assert Lazy(s, j + 2, AtQuote, false) == Some(e);
  }

  /** `{%\s*<keyword>\s+['"](.+?)['"]` at `i`. */
  function QuotedTagAt(s: string, i: nat, keyword: string): (r: Option<Match<string>>)
    ensures r.Some? ==> var target := r.value.value;
      i < r.value.end <= |s| && StartsWith(s[i..], "{%") && target != [] && '\n' !in target
      && (forall k :: 1 <= k < |target| ==> !IsQuote(target[k]))
  {
    match AfterKeyword(s, i, keyword)
    case None => None
    case Some(p) =>
      var w := Run(s, p, IsSpace);
      if w == 0 then None else QuotedAt(s, p + w)
  }

  function ExtendsAt(s: string, i: nat): Option<Match<string>> {
    QuotedTagAt(s, i, "extends")
  }

  function IncludeAt(s: string, i: nat): Option<Match<string>> {
    QuotedTagAt(s, i, "include")
  }

  /** A plain quoted target is read back unchanged, whichever quotes surround it. */
  lemma ExtendsRoundTrip(open: char, target: string, close: char, rest: string)
    requires IsQuote(open) && IsQuote(close)
    requires target != [] && forall k :: 0 <= k < |target| ==> !IsQuote(target[k]) && target[k] != '\n'
    ensures ExtendsAt("{% extends " + [open] + target + [close] + rest, 0) == Some(Match(13 + |target|, target))
  {
    var s := "{% extends " + [open] + target + [close] + rest;
    var n := |target|;
    assert s[..11] == "{% extends " && s[11] == open;
    assert s[12..12 + n] == target && s[12 + n] == close;
    ExtendsAtStart(s, n);
  }

  /** `{% extends ` is the tag opening, the keyword and one space. */
  lemma ExtendsKeyword(s: string)
    requires |s| >= 11 && s[..11] == "{% extends "
    ensures AfterKeyword(s, 0, "extends") == Some(10) && s[10] == ' '
  {
    assert s[..2] == s[..11][..2] && s[2] == s[..11][2] && s[3] == s[..11][3];
    assert s[3..10] == s[..11][3..10];
    RunExact(s, 2, 1, IsSpace);
    assert s[3..][..7] == "extends";
    assert s[10] == s[..11][10];
  }

  /** The `extends` matcher at 0 on a text that begins `{% extends `, then a quoted plain target. */
  lemma ExtendsAtStart(s: string, n: nat)
    requires 12 + n < |s| && s[..11] == "{% extends " && IsQuote(s[11]) && IsQuote(s[12 + n])
    requires n > 0 && forall k :: 12 <= k < 12 + n ==> !IsQuote(s[k]) && s[k] != '\n'
    ensures ExtendsAt(s, 0) == Some(Match(13 + n, s[12..12 + n]))
  {
    ExtendsKeyword(s);
    RunExact(s, 10, 1, IsSpace);
    var target := s[12..12 + n];
    forall k | 0 <= k < |target| ensures !IsQuote(target[k]) && target[k] != '\n' {
      assert target[k] == s[12 + k];
    }
    QuotedRoundTrip(s, 11, target);
  }

  /**
   * `{%\s*<keyword>\s+(\w+)\s*<close>` at `i`: the name is the whole word run
   * after the keyword's whitespace.
   */
  function NamedTagAt(s: string, i: nat, keyword: string, close: string): (r: Option<Match<string>>)
    ensures r.Some? ==> var name := r.value.value;
      i < r.value.end <= |s| && StartsWith(s[i..], "{%") && name != []
      && (forall k :: 0 <= k < |name| ==> IsWordChar(name[k]))
  {
    match AfterKeyword(s, i, keyword)
    case None => None
    case Some(p) =>
      var w := Run(s, p, IsSpace);
      var n0 := p + w;
      var n1 := n0 + Run(s, n0, IsWordChar);
      var e := n1 + Run(s, n1, IsSpace);
      if w == 0 || n1 == n0 || !StartsWith(s[e..], close) then None
      else Some(Match(e + |close|, s[n0..n1]))
  }

  function BlockAt(s: string, i: nat): Option<Match<string>> {
    NamedTagAt(s, i, "block", "%}")
  }

  function MacroAt(s: string, i: nat): Option<Match<string>> {
    NamedTagAt(s, i, "macro", "(")
  }

  /** `{{(.+?)}}` at `i`: at least one character, then the shortest run up to `}}` on the same line. */
  function VariableAt(s: string, i: nat): (r: Option<Match<string>>)
    ensures r.Some? ==> var body := r.value.value;
      body != [] && '\n' !in body && r.value.end == i + |body| + 4 <= |s|
      && s[i..r.value.end] == "{{" + body + "}}"
      && forall j :: i + 3 <= j < i + 2 + |body| ==> !AtCloseBraces(s[j..])
  {
    if i + 2 >= |s| || !StartsWith(s[i..], "{{") || s[i + 2] == '\n' then None
    else
      match Lazy(s, i + 3, AtCloseBraces, false)
      case None => None
      case Some(e) =>
        var body := s[i + 2..e];
        assert s[e..e + 2] == "}}";
        assert s[i..e + 2] == s[i..i + 2] + body + s[e..e + 2];
        Some(Match(e + 2, body))
  }

  /** A `{{ … }}` whose body holds no `}}` and no line break is read back as that body. */
  lemma VariableRoundTrip(body: string, rest: string)
    requires body != [] && '\n' !in body
    requires forall j :: 1 <= j < |body| ==> !AtCloseBraces((body + "}}")[j..])
    ensures VariableAt("{{" + body + "}}" + rest, 0) == Some(Match(|body| + 4, body))
  {
    var s := "{{" + body + "}}" + rest;
    var e := 2 + |body|;
    assert s[..2] == "{{" && s[2] == body[0];
    assert s[2..e] == body;
    assert s[e..][..2] == "}}";
    forall j | 3 <= j < e
      ensures !AtCloseBraces(s[j..]) && s[j] != '\n'
    {
      assert s[j] == body[j - 2];
      assert s[j..][..2] == (body + "}}")[j - 2..][..2];
    }
    assert Lazy(s, 3, AtCloseBraces, false) == Some(e);
  }

  /** The five results of the template extractor. */
  datatype TemplateInfo = TemplateInfo(
    blocks: seq<string>,
    parent: Option<string>,
    includes: seq<string>,
    macros: seq<string>,
    variables: seq<string>)

  const Defaults := TemplateInfo([], None, [], [], [])

  /** `[v.strip() for v in re.findall(r'{{(.+?)}}', content)]` */
  function Variables(s: string): seq<string> {
    var raw := FindAll(s, VariableAt);
    seq(|raw|, k requires 0 <= k < |raw| => Strip(raw[k]))
  }

  /**
   * The extractor: the defaults unless the file type is exactly `.jinja`; for
   * `.jinja`, `extends` is the first target `findall` would report.
   */
  function ExtractTemplateMetadata(content: string, fileType: string): (t: TemplateInfo)
    ensures fileType != ".jinja" ==> t == Defaults
    ensures fileType == ".jinja" ==> var all := FindAll(content, ExtendsAt);
      t.parent == (if all == [] then None else Some(all[0]))
  {
    if fileType != ".jinja" then Defaults
    else
      SearchIsFirst(content, 0, ExtendsAt);
      TemplateInfo(FindAll(content, BlockAt), Search(content, ExtendsAt), FindAll(content, IncludeAt),
                   FindAll(content, MacroAt), Variables(content))
  }

  /**
   * Every variable is the stripped body of a `{{ … }}` match, listed in text
   * order: the k-th variable comes from the k-th match position, and each
   * match ends before the next one starts.
   */
  lemma VariablesAreStrippedBodies(s: string)
    ensures var vars, pos := Variables(s), MatchStarts(s, 0, VariableAt);
      |vars| == |pos| == |FindAll(s, VariableAt)|
      && (forall k :: 0 <= k < |pos| ==>
            pos[k] <= |s| && VariableAt(s, pos[k]).Some?
            && Stripped(vars[k]) && vars[k] == Strip(VariableAt(s, pos[k]).value.value))
      && (forall k :: 0 <= k < |pos| - 1 ==> pos[k] < pos[k + 1] && VariableAt(s, pos[k]).value.end <= pos[k + 1])
  {
    FindAllInOrder(s, 0, VariableAt);
    var raw := FindAll(s, VariableAt);
    var vars := Variables(s);
    forall k | 0 <= k < |raw| ensures vars[k] == Strip(raw[k]) {
    }
  }

  /** The extractor's result as the dictionary it returns. */
  function TemplateFields(t: TemplateInfo): (d: Metadata)
    ensures d.Keys == {"blocks", "extends", "includes", "macros", "variables"}
  {
    map["blocks" := Strings(t.blocks),
        "extends" := if t.parent.Some? then VStr(t.parent.value) else VNone,
        "includes" := Strings(t.includes),
        "macros" := Strings(t.macros),
        "variables" := Strings(t.variables)]
  }

  function Strings(xs: seq<string>): Value {
    VList(seq(|xs|, k requires 0 <= k < |xs| => VStr(xs[k])))
  }
}
