/**
 * The metadata attached to each file of a dump. The ingestion pipeline keeps
 * the eight base statistics; the notebook pipeline adds `file_level_metadata`,
 * filled according to the file's extension from the extractors and the
 * foreign parsers, which are parameters here.
 */
module FileMetadata {
  import opened Wrappers
  import opened PyStr
  import opened PyPath
  import opened Values
  import opened RegexScan
  import opened PythonAst
  import opened PythonEntities
  import opened MarkdownMetadata
  import opened TemplateMetadata

  /** The foreign parsers: `ast.parse` (None for a SyntaxError), `yaml.safe_load`, `json.loads`. */
  datatype Parsers = Parsers(parsePython: string -> Option<Node>, loadYaml: Loader, loadJson: Loader)

  /** `os.path.splitext(path)[1].lower()` */
  function FileType(path: string): string {
    Lower(SplitExt(path))
  }

  const BaseKeys: set<string> :=
    {"file_path", "file_type", "file_name", "directory", "size_bytes", "num_lines", "is_empty", "has_shebang"}

  /** The eight base fields, as both pipelines compute them. */
  function BaseMetadata(path: string, content: string): (m: Metadata)
    ensures m.Keys == BaseKeys
  {
    BaseMap(VStr(path), VStr(FileType(path)), VStr(Basename(path)), VStr(Dirname(path)),
            VInt(Utf8Length(content)), VInt(|SplitLines(content)|), VBool(|Strip(content)| == 0),
            VBool(if content != [] then StartsWith(content, "#!") else false))
  }

  /** The eight base fields' dictionary, given their values. */
  function BaseMap(path: Value, fileType: Value, name: Value, directory: Value,
                   size: Value, lines: Value, isEmpty: Value, shebang: Value): (m: Metadata)
    ensures m.Keys == BaseKeys
    ensures m["file_path"] == path && m["file_type"] == fileType && m["file_name"] == name
    ensures m["directory"] == directory && m["size_bytes"] == size && m["num_lines"] == lines
    ensures m["is_empty"] == isEmpty && m["has_shebang"] == shebang
  {
    map["file_path" := path, "file_type" := fileType, "file_name" := name, "directory" := directory,
        "size_bytes" := size, "num_lines" := lines, "is_empty" := isEmpty, "has_shebang" := shebang]
  }

  /**
   * What the base fields mean: `is_empty` holds iff the content is all
   * whitespace; `has_shebang` iff it begins with "#!" (so never for empty
   * content); the size is the UTF-8 byte count, between one and four bytes per
   * character; the line count is zero only for empty content and at most one
   * per character; the file type is empty or a lower-case dotted extension.
   */
  lemma BaseMetadataFields(path: string, content: string)
    ensures var m := BaseMetadata(path, content);
      && m["is_empty"] == VBool(AllSpace(content))
      && m["has_shebang"] == VBool(|content| >= 2 && content[0] == '#' && content[1] == '!')
      && (content == [] ==> m["has_shebang"] == VBool(false))
      && m["size_bytes"].VInt? && |content| <= m["size_bytes"].i <= 4 * |content|
      && m["num_lines"].VInt? && 0 <= m["num_lines"].i <= |content|
      && (m["num_lines"].i == 0 <==> content == [])
      && var t := m["file_type"].s;
        t == [] || (t[0] == '.' && '/' !in t && '.' !in t[1..])
  {
    BaseFlags(path, content);
    BaseCounts(path, content);
    BaseFileType(path, content);
  }

  lemma BaseFlags(path: string, content: string)
    ensures var m := BaseMetadata(path, content);
      && m["is_empty"] == VBool(AllSpace(content))
      && m["has_shebang"] == VBool(|content| >= 2 && content[0] == '#' && content[1] == '!')
  {
    if |content| >= 2 {
      assert content[..2] == [content[0], content[1]];
    }
    assert StartsWith(content, "#!") <==> |content| >= 2 && content[0] == '#' && content[1] == '!';
  }

  lemma BaseCounts(path: string, content: string)
    ensures var m := BaseMetadata(path, content);
      && m["size_bytes"] == VInt(Utf8Length(content)) && |content| <= Utf8Length(content) <= 4 * |content|
      && m["num_lines"] == VInt(|SplitLines(content)|) && |SplitLines(content)| <= |content|
      && (|SplitLines(content)| == 0 <==> content == [])
  {
    LineCountBounds(content);
  }

  lemma BaseFileType(path: string, content: string)
    ensures var t := BaseMetadata(path, content)["file_type"].s;
      t == [] || (t[0] == '.' && '/' !in t && '.' !in t[1..])
  {
    FileTypeShape(path);
  }

  /** `ingestion_pipeline.__extract_file_metadata`: exactly the base fields. */
  function IngestionMetadata(path: string, content: string): (m: Metadata)
    ensures m.Keys == BaseKeys
  {
    BaseMetadata(path, content)
  }

  // ---------------------------------------------------------------------------
  // Python files
  // ---------------------------------------------------------------------------

  predicate NotSpace(c: char) {
    !IsSpace(c)
  }

  /**
   * `^(?:from|import)\s+(\S+)` (MULTILINE) at `i`: the first non-blank word after
   * a line-initial `from` or `import` and at least one whitespace character
   * (which may include line breaks).
   */
  function ImportAt(s: string, i: nat): (r: Option<Match<string>>)
    ensures r.Some? ==> (LineStart(s, i) && i < r.value.end <= |s|
      && (StartsWith(s[i..], "from") || StartsWith(s[i..], "import"))
      && r.value.value != [] && forall k :: 0 <= k < |r.value.value| ==> !IsSpace(r.value.value[k]))
  {
    if !LineStart(s, i) then None
    else
      var k := if StartsWith(s[i..], "from") then 4 else if StartsWith(s[i..], "import") then 6 else 0;
      if k == 0 then None
      else
        var w := Run(s, i + k, IsSpace);
        var q := i + k + w;
        var n := Run(s, q, NotSpace);
        if w == 0 || n == 0 then None else Some(Match(q + n, s[q..q + n]))
  }

  /** The entities of one kind, in order. */
  function OfKind(es: seq<CodeEntity>, kind: string): (r: seq<CodeEntity>)
    ensures |r| <= |es|
    ensures forall e :: e in r <==> e in es && e.kind == kind
  {
    if es == [] then [] else (if es[0].kind == kind then [es[0]] else []) + OfKind(es[1..], kind)
  }

  /** Number of entities whose docstring is present and non-empty. */
  function Documented(es: seq<CodeEntity>): (n: nat)
    ensures n <= |es|
  {
    if es == [] then 0 else (if Truthy(es[0].docstring) then 1 else 0) + Documented(es[1..])
  }

  /** `doc_coverage`: 0 without entities, else documented / total, kept as an exact ratio. */
  function DocCoverage(es: seq<CodeEntity>): (v: Value)
    ensures es == [] ==> v == VInt(0)
    ensures es != [] ==> v.VRatio? && v.den == |es| > 0 && v.num <= v.den
  {
    if es == [] then VInt(0) else VRatio(Documented(es), |es|)
  }

  /** Coverage counts exactly the documented entities: all documented gives 1, none gives 0. */
  lemma {:induction false} DocumentedBounds(es: seq<CodeEntity>)
    ensures (forall e :: e in es ==> Truthy(e.docstring)) ==> Documented(es) == |es|
    ensures (forall e :: e in es ==> !Truthy(e.docstring)) ==> Documented(es) == 0
  {
    if es != [] {
      DocumentedBounds(es[1..]);
      assert forall e :: e in es[1..] ==> e in es;
    }
  }

  /** Every entity is a class or a function, so the two lists share out all of them. */
  lemma {:induction false} KindsPartition(es: seq<CodeEntity>)
    requires forall e :: e in es ==> e.kind == "class" || e.kind == "function"
    ensures |OfKind(es, "class")| + |OfKind(es, "function")| == |es|
  {
    if es != [] {
      assert forall e :: e in es[1..] ==> e in es;
      KindsPartition(es[1..]);
    }
  }

  function Entities(es: seq<CodeEntity>): Value {
    VList(seq(|es|, k requires 0 <= k < |es| => VEntity(es[k])))
  }

  /** The `.py` entries: classes, functions, whether some entity is named `__main__`, imports, coverage. */
  function PythonFields(parsed: Option<Node>, content: string): (d: Metadata)
    ensures d.Keys == {"classes", "functions", "has_main", "imports", "doc_coverage"}
  {
    var es := PythonEntities.PythonEntities(parsed);
    map["classes" := Entities(OfKind(es, "class")),
        "functions" := Entities(OfKind(es, "function")),
        "has_main" := VBool(exists k :: 0 <= k < |es| && es[k].name == "__main__"),
        "imports" := Strings(FindAll(content, ImportAt)),
        "doc_coverage" := DocCoverage(es)]
  }

  /** The classes and functions of a parsed file account for every entity in it. */
  lemma PythonFieldsPartition(parsed: Option<Node>)
    ensures var es := PythonEntities.PythonEntities(parsed);
      |OfKind(es, "class")| + |OfKind(es, "function")| == |es|
  {
    var es := PythonEntities.PythonEntities(parsed);
    if parsed.Some? {
      EntityKinds(Walk(parsed.value));
    }
    KindsPartition(es);
  }

  // ---------------------------------------------------------------------------
  // YAML and JSON files
  // ---------------------------------------------------------------------------

  /** `list(v.keys()) if isinstance(v, dict) else []` */
  function TopLevelKeys(v: Value): Value {
    if v.VDict? then VList(seq(|v.pairs|, k requires 0 <= k < |v.pairs| => v.pairs[k].0)) else VList([])
  }

  /** The structure summary of a loaded document; nothing when the loader raises. */
  function Structure(loaded: Option<Value>, key: string, listKey: string): (d: Metadata)
    ensures loaded.None? <==> d == map[]
    ensures loaded.Some? ==> (d.Keys == {key} && d[key].VMap?
      && d[key].fields.Keys == {"top_level_keys", listKey}
      && d[key].fields[listKey] == VBool(loaded.value.VList?))
  {
    match loaded
    case None => map[]
    case Some(v) =>
      var d := map[key := VMap(map["top_level_keys" := TopLevelKeys(v), listKey := VBool(v.VList?)])];
      assert key in d;
      d
  }

  /**
   * `file_level_metadata` by extension: `.py` entities and imports, `.md`
   * markdown metadata, `.html` and `.jinja` template metadata, `.yml`/`.yaml`
   * and `.json` structure summaries, nothing for any other extension.
   */
  function FileLevelMetadata(ext: string, content: string, parsers: Parsers): (m: Metadata)
    ensures ext == ".py" ==> m.Keys == {"classes", "functions", "has_main", "imports", "doc_coverage"}
    ensures ext == ".md" ==> m.Keys == {"headers", "links", "code_blocks", "frontmatter"}
    ensures ext in {".html", ".jinja"} ==> m.Keys == {"blocks", "extends", "includes", "macros", "variables"}
    ensures ext in {".yml", ".yaml"} ==> m.Keys <= {"yaml_structure"}
    ensures ext == ".json" ==> m.Keys <= {"json_structure"}
  {
    if ext == ".py" then PythonFields(parsers.parsePython(content), content)
    else if ext == ".md" then MarkdownFields(ExtractMarkdownMetadata(content, parsers.loadYaml))
    else if ext == ".html" || ext == ".jinja" then TemplateFields(ExtractTemplateMetadata(content, ext))
    else if ext == ".yml" || ext == ".yaml" then Structure(parsers.loadYaml(content), "yaml_structure", "is_list")
    else if ext == ".json" then Structure(parsers.loadJson(content), "json_structure", "is_array")
    else map[]
  }

  /** `pipeline.extract_file_metadata`: the base fields plus `file_level_metadata`. */
  function PipelineMetadata(path: string, content: string, parsers: Parsers): (m: Metadata)
    ensures m.Keys == BaseKeys + {"file_level_metadata"}
    ensures forall k :: k in BaseKeys ==> m[k] == BaseMetadata(path, content)[k]
  {
    var base := BaseMetadata(path, content);
    var level := VMap(FileLevelMetadata(FileType(path), content, parsers));
    AddLevel(base, level);
    base["file_level_metadata" := level]
  }

  /** Adding `file_level_metadata` to the base fields keeps every one of them. */
  lemma AddLevel(base: Metadata, level: Value)
    requires base.Keys == BaseKeys
    ensures var m := base["file_level_metadata" := level];
      m.Keys == BaseKeys + {"file_level_metadata"} && forall k :: k in BaseKeys ==> m[k] == base[k]
  {
    assert "file_level_metadata" !in BaseKeys;
  }

  /** Both metadata builders store the file type under "file_type". */
  lemma FileTypeStored(path: string, content: string, parsers: Parsers)
    ensures BaseMetadata(path, content)["file_type"] == VStr(FileType(path))
    ensures PipelineMetadata(path, content, parsers)["file_type"] == VStr(FileType(path))
  {
    var base := BaseMetadata(path, content);
    assert base["file_type"] == VStr(FileType(path));
    assert PipelineMetadata(path, content, parsers)["file_type"] == base["file_type"];
  }

  /** The extraction function the notebook pipeline hands to the dump parser. */
  function PipelineExtract(parsers: Parsers): (string, string) -> Metadata {
    (path, content) => PipelineMetadata(path, content, parsers)
  }

  /**
   * Only the listed extensions get file-level entries; an `.html` file gets the
   * template defaults, since only `.jinja` is scanned.
   */
  lemma FileLevelByExtension(ext: string, content: string, parsers: Parsers)
    ensures ext !in {".py", ".md", ".html", ".jinja", ".yml", ".yaml", ".json"} ==>
      FileLevelMetadata(ext, content, parsers) == map[]
    ensures ext == ".html" ==> FileLevelMetadata(ext, content, parsers) == TemplateFields(TemplateMetadata.Defaults)
  {
  }
}
