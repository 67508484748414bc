/**
 * `MetadataExtractor.extract_markdown_metadata`: four scans over a markdown
 * text. Each regular expression is a matcher here, its backtracking settled
 * by hand:
 *   headers      `^(#{1,6})\s+(.+)$` (MULTILINE)
 *   links        `\[([^\]]+)\]\(([^\)]+)\)`
 *   code blocks  ```` ```(\w+)?\n(.*?)``` ```` (DOTALL)
 *   frontmatter  `---\n(.*?)\n---` (DOTALL, anchored at the start)
 */
module MarkdownMetadata {
  import opened Wrappers
  import opened PyStr
  import opened Values
  import opened RegexScan

  /**
   * A header line: at a line start, a run of exactly `level` '#' characters,
   * 1 to 6 of them, followed by a whitespace character.
   */
  predicate HeaderLine(s: string, i: nat, level: nat) {
    LineStart(s, i) && 1 <= level <= 6 && i + level < |s|
    && (forall k :: i <= k < i + level ==> s[k] == '#') && IsSpace(s[i + level])
  }

  predicate IsHash(c: char) {
    c == '#'
  }

  predicate NotCloseBracket(c: char) {
    c != ']'
  }

  predicate NotCloseParen(c: char) {
    c != ')'
  }

  /** Where a code fence starts. */
  predicate AtFence(t: string) {
    StartsWith(t, "```")
  }

  /** Where the closing line of a frontmatter block starts. */
  predicate AtFrontmatterEnd(t: string) {
    StartsWith(t, "\n---")
  }

  /** The largest position in `[lo, hi)` that is not a line break. */
  function LastNonNewline(s: string, lo: nat, hi: nat): (k: Option<nat>)
    requires lo <= hi <= |s|
    decreases hi - lo
    ensures k.Some? ==> lo <= k.value < hi && s[k.value] != '\n'
  {
    if lo == hi then None
    else if s[hi - 1] != '\n' then Some(hi - 1)
    else LastNonNewline(s, lo, hi - 1)
  }

  /**
   * The header pattern at `i`: the '#' run must be 1 to 6 long and be followed
   * by whitespace; `\s+` takes all the whitespace (line breaks included) and the
   * text is the rest of the line where it stops. When the whitespace runs to the
   * end of the text, `\s+` gives back characters until `.+` can start.
   */
  function HeaderAt(s: string, i: nat): (r: Option<Match<(nat, string)>>)
    ensures r.Some? ==> (i < r.value.end <= |s| && HeaderLine(s, i, r.value.value.0)
      && r.value.value.1 != [] && '\n' !in r.value.value.1)
    ensures forall h :: HeaderLine(s, i, h) && (exists k :: i + h < k < |s| && !IsSpace(s[k])) ==>
      r.Some? && r.value.value.0 == h
  {
    HeaderLineScan(s, i);
    if !LineStart(s, i) then None
    else
      var h := Run(s, i, IsHash);
      var p := i + h;
      var w := Run(s, p, IsSpace);
      if h == 0 || h > 6 || w == 0 then None
      else
        match HeaderTextAt(s, p, p + w)
        case Some(m) => Some(Match(m.end, (h, m.value)))
        case None => None
  }

  /**
   * The `(.+)$` part of the header pattern, once `\s+` has taken `s[p..q]`: the
   * rest of the line at `q`, or, when the whitespace ran to the end, the last
   * line that `\s+` can give back.
   */
  function HeaderTextAt(s: string, p: nat, q: nat): (r: Option<Match<string>>)
    requires p < q <= |s| && (q == |s| || !IsSpace(s[q]))
    ensures r.Some? ==> p < r.value.end <= |s| && r.value.value != [] && '\n' !in r.value.value
    ensures q < |s| ==> r.Some?
  {
    if q < |s| then
      var e := LineEnd(s, q);
      assert s[q] != '\n';
      Some(Match(e, s[q..e]))
    else
      match LastNonNewline(s, p + 1, q)
      case Some(k) =>
        var e := LineEnd(s, k);
        Some(Match(e, s[k..e]))
      case None => None
  }

  /**
   * On a header line with some non-space text after the '#' run, the '#' run is
   * exactly `level` long and the whitespace after it stops before the end.
   */
  lemma HeaderLineScan(s: string, i: nat)
    ensures forall h :: HeaderLine(s, i, h) && (exists k :: i + h < k < |s| && !IsSpace(s[k])) ==>
      Run(s, i, IsHash) == h && Run(s, i + h, IsSpace) > 0 && i + h + Run(s, i + h, IsSpace) < |s|
  {
    forall h | HeaderLine(s, i, h) && (exists k :: i + h < k < |s| && !IsSpace(s[k]))
      ensures Run(s, i, IsHash) == h && Run(s, i + h, IsSpace) > 0 && i + h + Run(s, i + h, IsSpace) < |s|
    {
      var k :| i + h < k < |s| && !IsSpace(s[k]);
      assert IsSpace(s[i + h]);
    }
  }

  /** `re.findall` of the header pattern, each match as (level, text). */
  function Headers(s: string): seq<(nat, string)> {
    FindAll(s, HeaderAt)
  }

  /** Every header comes from a header line, its level the number of '#', its text one line. */
  lemma HeadersFromHeaderLines(s: string)
    ensures forall x :: x in Headers(s) ==>
      (exists i :: HeaderLine(s, i, x.0)) && x.1 != [] && '\n' !in x.1
  {
    forall x | x in Headers(s)
      ensures (exists i :: HeaderLine(s, i, x.0)) && x.1 != [] && '\n' !in x.1
    {
      FindAllSound(s, 0, HeaderAt, x);
    }
  }

  /**
   * On a header line of level `h`, the header text starts at the first
   * non-space character `q` after the '#' run and runs to the end of its line.
   * `\s` matches line breaks, so when the '#' run ends its line, `q` (and the
   * text) lies on a later line.
   */
  lemma HeaderTextFromNextLine(s: string, i: nat, h: nat, q: nat)
    requires HeaderLine(s, i, h)
    requires i + h < q < |s| && !IsSpace(s[q]) && forall k :: i + h <= k < q ==> IsSpace(s[k])
    ensures HeaderAt(s, i) == Some(Match(LineEnd(s, q), (h, s[q..LineEnd(s, q)])))
  {
    RunExact(s, i, h, IsHash);
    RunExact(s, i + h, q - (i + h), IsSpace);
    HeaderAtRuns(s, i, h, q);
  }

  /** The header matcher once the '#' run and the whitespace after it are known. */
  lemma HeaderAtRuns(s: string, i: nat, h: nat, q: nat)
    requires LineStart(s, i) && 1 <= h <= 6 && i + h < q < |s| && !IsSpace(s[q])
    requires Run(s, i, IsHash) == h && Run(s, i + h, IsSpace) == q - (i + h)
    ensures HeaderAt(s, i) == Some(Match(LineEnd(s, q), (h, s[q..LineEnd(s, q)])))
  {
    assert HeaderTextAt(s, i + h, q) == Some(Match(LineEnd(s, q), s[q..LineEnd(s, q)]));
  }

  /** The link pattern at `i`: `[`, a text free of ']', `](`, a target free of ')', `)`. */
  function LinkAt(s: string, i: nat): (r: Option<Match<(string, string)>>)
    ensures r.Some? ==> var (text, url) := r.value.value;
      text != [] && url != [] && ']' !in text && ')' !in url
      && r.value.end == i + |text| + |url| + 4 <= |s|
      && s[i..r.value.end] == "[" + text + "](" + url + ")"
  {
    if i >= |s| || s[i] != '[' then None
    else
      var a := i + 1;
      var close := a + Run(s, a, NotCloseBracket);
      if close == a || close + 1 >= |s| || s[close + 1] != '(' then None
      else
        var b := close + 2;
        var stop := b + Run(s, b, NotCloseParen);
        if stop == b || stop >= |s| then None
        else
          LinkSlice(s, i, close, stop);
          Some(Match(stop + 1, (s[a..close], s[b..stop])))
  }

  /** A link cut at its `](` and its closing `)`. */
  lemma LinkSlice(s: string, i: nat, close: nat, stop: nat)
    requires i < close && close + 2 <= stop < |s|
    requires s[i] == '[' && s[close] == ']' && s[close + 1] == '(' && s[stop] == ')'
    ensures s[i..stop + 1] == "[" + s[i + 1..close] + "](" + s[close + 2..stop] + ")"
  {
    assert s[i..close] == [s[i]] + s[i + 1..close];
    assert s[close..close + 2] == [s[close], s[close + 1]];
    assert s[i..close + 2] == s[i..close] + s[close..close + 2];
    assert s[i..stop + 1] == s[i..close + 2] + s[close + 2..stop] + [s[stop]];
  }

  /** A link written out is read back as the same text and target. */
  lemma LinkRoundTrip(text: string, url: string, rest: string)
    requires text != [] && url != [] && ']' !in text && ')' !in url
    ensures LinkAt("[" + text + "](" + url + ")" + rest, 0) == Some(Match(|text| + |url| + 4, (text, url)))
  {
    var s := "[" + text + "](" + url + ")" + rest;
    var close := 1 + |text|;
    var b := close + 2;
    var stop := b + |url|;
    LinkPieces(text, url, rest);
    forall k | 1 <= k < close ensures NotCloseBracket(s[k]) {
      assert s[k] == s[1..close][k - 1];
    }
    forall k | b <= k < stop ensures NotCloseParen(s[k]) {
      assert s[k] == s[b..stop][k - b];
    }
    LinkAtStart(s, close, stop);
  }

  /** The link matcher at 0 on a text laid out as `[`, text, `](`, target, `)`. */
  lemma LinkAtStart(s: string, close: nat, stop: nat)
    requires 1 < close && close + 2 < stop < |s|
    requires s[0] == '[' && s[close] == ']' && s[close + 1] == '(' && s[stop] == ')'
    requires forall k :: 1 <= k < close ==> NotCloseBracket(s[k])
    requires forall k :: close + 2 <= k < stop ==> NotCloseParen(s[k])
    ensures LinkAt(s, 0) == Some(Match(stop + 1, (s[1..close], s[close + 2..stop])))
  {
    RunExact(s, 1, close - 1, NotCloseBracket);
    RunExact(s, close + 2, stop - close - 2, NotCloseParen);
  }

  /** Where each piece of a written-out link lies. */
  lemma LinkPieces(text: string, url: string, rest: string)
    ensures var s := "[" + text + "](" + url + ")" + rest;
      var close := 1 + |text|;
      var stop := close + 2 + |url|;
      |s| == stop + 1 + |rest| && s[0] == '[' && s[1..close] == text && s[close] == ']' && s[close + 1] == '('
      && s[close + 2..stop] == url && s[stop] == ')'
  {
    var head := "[" + text + "](";
    var s := head + url + ")" + rest;
    assert s[1..1 + |text|] == head[1..1 + |text|];
    assert s[|head|..|head| + |url|] == url;
  }

  /** `re.findall` of the link pattern: (text, target) pairs. */
  function Links(s: string): seq<(string, string)> {
    FindAll(s, LinkAt)
  }

  /** Every reported link is the link pattern's match at some position. */
  lemma LinksFound(s: string)
    ensures forall l :: l in Links(s) ==> exists i :: 0 <= i <= |s| && LinkAt(s, i).Some? && LinkAt(s, i).value.value == l
  {
    forall l | l in Links(s)
      ensures exists i :: 0 <= i <= |s| && LinkAt(s, i).Some? && LinkAt(s, i).value.value == l
    {
      FindAllSound(s, 0, LinkAt, l);
    }
  }

  predicate AllWord(s: string) {
    forall k :: 0 <= k < |s| ==> IsWordChar(s[k])
  }

  /**
   * The code-block pattern at `i`: a fence, an optional run of word characters,
   * a line break, then the shortest text up to the next fence (line breaks
   * allowed). The language group is unmatched exactly when the line break
   * follows the fence directly.
   */
  function CodeBlockAt(s: string, i: nat): (r: Option<Match<(Option<string>, string)>>)
    ensures r.Some? ==> var (lang, code) := r.value.value;
      var tag := lang.GetOr("");
      i + 3 < |s| && (lang.None? <==> s[i + 3] == '\n') && (lang.Some? ==> lang.value != [])
      && AllWord(tag) && r.value.end == i + |tag| + |code| + 7 <= |s|
      && s[i..r.value.end] == "```" + tag + "\n" + code + "```"
      && forall j :: i + |tag| + 4 <= j < i + |tag| + 4 + |code| ==> !StartsWith(s[j..], "```")
  {
    if i > |s| || !StartsWith(s[i..], "```") then None
    else
      var j := i + 3 + Run(s, i + 3, IsWordChar);
      if j >= |s| || s[j] != '\n' then None
      else
        match Lazy(s, j + 1, AtFence, true)
        case None => None
        case Some(c) =>
          var lang := if j == i + 3 then None else Some(s[i + 3..j]);
          FenceSlice(s, i, j, c);
          assert lang.GetOr("") == s[i + 3..j];
          Some(Match(c + 3, (lang, s[j + 1..c])))
  }

  /** A fenced block cut at its tag's line break `j` and its closing fence `c`. */
  lemma FenceSlice(s: string, i: nat, j: nat, c: nat)
    requires i + 3 <= j < c && c + 3 <= |s|
    requires StartsWith(s[i..], "```") && s[j] == '\n' && StartsWith(s[c..], "```")
    ensures s[i..c + 3] == "```" + s[i + 3..j] + "\n" + s[j + 1..c] + "```"
  {
    assert s[i..i + 3] == s[i..][..3];
    assert s[c..c + 3] == s[c..][..3];
    assert s[i..c + 3] == s[i..i + 3] + s[i + 3..j] + [s[j]] + s[j + 1..c] + s[c..c + 3];
  }

  /** `[(lang or 'text', code) for lang, code in re.findall(...)]` */
  function CodeBlocks(s: string): (blocks: seq<(string, string)>)
  {
    var raw := FindAll(s, CodeBlockAt);
    seq(|raw|, k requires 0 <= k < |raw| => (raw[k].0.GetOr("text"), raw[k].1))
  }

  /**
   * The language a code-block match reports: 'text' when the line break follows
   * the fence directly, otherwise the word run between fence and line break.
   */
  predicate FenceLanguage(s: string, i: nat, lang: string) {
    i + 3 < |s| && StartsWith(s[i..], "```")
    && (s[i + 3] == '\n' ==> lang == "text")
    && (s[i + 3] != '\n' ==> lang != [] && AllWord(lang) && StartsWith(s[i + 3..], lang + "\n"))
  }

  lemma FenceLanguageAt(s: string, i: nat)
    requires CodeBlockAt(s, i).Some?
    ensures FenceLanguage(s, i, CodeBlockAt(s, i).value.value.0.GetOr("text"))
  {
    var m := CodeBlockAt(s, i).value;
    var tag := m.value.0.GetOr("");
    var t := s[i..m.end];
    assert t == "```" + tag + "\n" + m.value.1 + "```";
    assert s[i..][..3] == t[..3];
    if s[i + 3] != '\n' {
      assert s[i + 3..][..|tag| + 1] == t[3..|tag| + 4];
    }
  }

  /** Every reported code block comes from a fence, and a fence without a tag gives 'text'. */
  lemma CodeBlockLanguages(s: string)
    ensures forall b :: b in CodeBlocks(s) ==> exists i: nat :: FenceLanguage(s, i, b.0)
  {
    var raw := FindAll(s, CodeBlockAt);
    forall b | b in CodeBlocks(s)
      ensures exists i: nat :: FenceLanguage(s, i, b.0)
    {
      var k :| 0 <= k < |raw| && b == (raw[k].0.GetOr("text"), raw[k].1);
      FindAllSound(s, 0, CodeBlockAt, raw[k]);
      var i :| 0 <= i <= |s| && CodeBlockAt(s, i).Some? && CodeBlockAt(s, i).value.value == raw[k];
      FenceLanguageAt(s, i);
    }
  }

  /** The group of `re.match(r'---\n(.*?)\n---', s, re.DOTALL)`, if it matches. */
  function FrontmatterText(s: string): (t: Option<string>)
    ensures t.Some? ==> (StartsWith(s, "---\n" + t.value + "\n---")
      && forall j :: 4 <= j < 4 + |t.value| ==> !StartsWith(s[j..], "\n---"))
  {
    if !StartsWith(s, "---\n") then None
    else
      match Lazy(s, 4, AtFrontmatterEnd, true)
      case None => None
      case Some(k) =>
        assert s[..k + 4] == "---\n" + s[4..k] + "\n---";
        Some(s[4..k])
  }

  /** A frontmatter block without an inner "\n---" is found and cut out exactly. */
  lemma FrontmatterRoundTrip(t: string, rest: string)
    requires forall j :: 0 <= j < |t| ==> !StartsWith((t + "\n---")[j..], "\n---")
    ensures FrontmatterText("---\n" + t + "\n---" + rest) == Some(t)
  {
    var s := "---\n" + t + "\n---" + rest;
    assert StartsWith(s, "---\n");
    assert s[4..4 + |t|] == t;
    forall j | 4 <= j < 4 + |t|
      ensures !StartsWith(s[j..], "\n---")
    {
      assert s[j..][..4] == (t + "\n---")[j - 4..][..4];
    }
    assert s[4 + |t|..][..4] == "\n---";
    assert AtFrontmatterEnd(s[4 + |t|..]);
    var r := Lazy(s, 4, AtFrontmatterEnd, true);
    assert r == Some(4 + |t|);
  }

  /**
   * The `frontmatter` value: tried only when the text starts with '---'; None
   * when the block has no closing '---' or the YAML loader raises, else what the
   * loader returns.
   */
  function Frontmatter(s: string, loadYaml: Loader): (v: Value)
    ensures !StartsWith(s, "---") ==> v == VNone
    ensures FrontmatterText(s).None? ==> v == VNone
    ensures FrontmatterText(s).Some? && loadYaml(FrontmatterText(s).value).None? ==> v == VNone
    ensures v != VNone ==> exists t :: FrontmatterText(s) == Some(t) && loadYaml(t) == Some(v)
  {
    if !StartsWith(s, "---") then VNone
    else
      match FrontmatterText(s)
      case None => VNone
      case Some(t) => loadYaml(t).GetOr(VNone)
  }

  /** The four results of the markdown extractor. */
  datatype MarkdownInfo = MarkdownInfo(
    headers: seq<(nat, string)>,
    links: seq<(string, string)>,
    codeBlocks: seq<(string, string)>,
    frontmatter: Value)

  /**
   * `extract_markdown_metadata`: every header comes from a header line of its
   * level, every link and code block from a match in the text, and the
   * frontmatter is the loader's value of the block between the dashes.
   */
  function ExtractMarkdownMetadata(content: string, loadYaml: Loader): (m: MarkdownInfo)
    ensures forall x :: x in m.headers ==> (exists i :: HeaderLine(content, i, x.0)) && x.1 != [] && '\n' !in x.1
    ensures forall l :: l in m.links ==>
      exists i :: 0 <= i <= |content| && LinkAt(content, i).Some? && LinkAt(content, i).value.value == l
    ensures forall b :: b in m.codeBlocks ==> exists i: nat :: FenceLanguage(content, i, b.0)
    ensures m.frontmatter != VNone ==>
      exists t :: FrontmatterText(content) == Some(t) && loadYaml(t) == Some(m.frontmatter)
  {
    HeadersFromHeaderLines(content);
    LinksFound(content);
    CodeBlockLanguages(content);
    MarkdownInfo(Headers(content), Links(content), CodeBlocks(content), Frontmatter(content, loadYaml))
  }

  function Pairs<A, B>(xs: seq<(A, B)>, f: A -> Value, g: B -> Value): Value {
    VList(seq(|xs|, k requires 0 <= k < |xs| => VTuple([f(xs[k].0), g(xs[k].1)])))
  }

  /** The extractor's result as the dictionary it returns. */
  function MarkdownFields(m: MarkdownInfo): (d: Metadata)
    ensures d.Keys == {"headers", "links", "code_blocks", "frontmatter"}
  {
    map["headers" := Pairs(m.headers, (n: nat) => VInt(n), (t: string) => VStr(t)),
        "links" := Pairs(m.links, (t: string) => VStr(t), (t: string) => VStr(t)),
        "code_blocks" := Pairs(m.codeBlocks, (t: string) => VStr(t), (t: string) => VStr(t)),
        "frontmatter" := m.frontmatter]
  }
}
