/**
 * Repository chunking, the driver both pipelines share
 * (`advanced_repository_chunking` in the notebook pipeline, `__chunk_content`
 * in the ingestion pipeline): cut the dump into files, build the repository
 * metadata from the URL, then chunk each file with the splitter its extension
 * selects and attach the combined metadata to every chunk. Markdown files are
 * cut at headers first and re-cut by size when a section is too long. A file
 * whose splitting raises is skipped; the URL's IndexError is not caught.
 *
 * The two pipelines differ in their splitter tables, their file metadata and
 * the way the repository metadata is combined with it (nested under
 * "repository", or flattened with "repository_" keys).
 */
module Chunking {
  import opened Wrappers
  import opened PyStr
  import opened PyPath
  import opened Values
  import opened DumpParser
  import opened FileMetadata

  // ---------------------------------------------------------------------------
  // Splitters and the strategy tables
  // ---------------------------------------------------------------------------

  /**
   * A LangChain splitter configuration: a recursive character splitter with its
   * separators, one built for a programming language (whose separators are the
   * library's), or a Markdown header splitter with its (marker, name) pairs.
   */
  datatype Splitter =
    | Recursive(chunkSize: nat, overlap: nat, separators: seq<string>)
    | ForLanguage(language: string, chunkSize: nat, overlap: nat)
    | MarkdownHeaders(headers: seq<(string, string)>)

  const MarkdownSplitter: Splitter :=
    MarkdownHeaders([("#", "Header 1"), ("##", "Header 2"), ("###", "Header 3"), ("####", "Header 4")])

  const ConfigSplitter: Splitter := Recursive(300, 50, ["---", "\n\n", "\n"])

  const DefaultSplitter: Splitter := Recursive(400, 50, ["\n\n", "\n", ". ", " "])

  /** The notebook pipeline's `create_chunking_strategies`. */
  const PipelineStrategies: map<string, Splitter> := map[
    ".py" := ForLanguage("python", 500, 50),
    ".md" := MarkdownSplitter,
    ".html" := Recursive(500, 100, ["</div>", "</template>", "</section>", "\n\n", "\n"]),
    ".jinja" := Recursive(500, 100, ["{% block ", "{% extends ", "{% include ", "\n\n", "\n"]),
    ".yml" := ConfigSplitter,
    ".yaml" := ConfigSplitter,
    ".toml" := Recursive(300, 50, ["\n\n", "\n"]),
    ".json" := Recursive(500, 50, ["},", "}\n", "\n"]),
    ".rst" := Recursive(600, 100, ["\n=+\n", "\n-+\n", "\n\n", "\n"]),
    ".txt" := Recursive(500, 50, ["\n\n", "\n", ". "]),
    "default" := DefaultSplitter]

  /** The ingestion pipeline's `__create_chunking_strategies`. */
  const IngestionStrategies: map<string, Splitter> := map[
    ".md" := MarkdownSplitter,
    ".yml" := ConfigSplitter,
    ".yaml" := ConfigSplitter,
    "default" := DefaultSplitter]

  /** `strategies.get(ext, strategies['default'])` */
  function SplitterFor(table: map<string, Splitter>, ext: string): Splitter
    requires "default" in table
  {
    if ext in table then table[ext] else table["default"]
  }

  /**
   * The ingestion table is the notebook table cut down to Markdown, YAML and the
   * default; in both, `.yml` and `.yaml` share a splitter, `.md` gets the header
   * splitter and every extension outside the table gets the 400/50 default.
   */
  lemma StrategyTables(ext: string)
    ensures IngestionStrategies.Keys == {".md", ".yml", ".yaml", "default"}
    ensures forall k :: k in IngestionStrategies ==> k in PipelineStrategies && PipelineStrategies[k] == IngestionStrategies[k]
    ensures SplitterFor(PipelineStrategies, ".md") == SplitterFor(IngestionStrategies, ".md") == MarkdownSplitter
    ensures SplitterFor(PipelineStrategies, ".yml") == SplitterFor(PipelineStrategies, ".yaml")
    ensures SplitterFor(IngestionStrategies, ".yml") == SplitterFor(IngestionStrategies, ".yaml")
    ensures ext !in PipelineStrategies ==> SplitterFor(PipelineStrategies, ext) == DefaultSplitter
    ensures ext !in {".md", ".yml", ".yaml"} ==> SplitterFor(IngestionStrategies, ext) == DefaultSplitter
  {
  }

  // ---------------------------------------------------------------------------
  // Documents and the splitting library
  // ---------------------------------------------------------------------------

  /** A LangChain `Document`. */
  datatype Document = Document(pageContent: string, metadata: Metadata)

  /**
   * The splitting library, foreign code: `split_text` of a character splitter
   * (the pieces of a text) and of the Markdown header splitter (one document per
   * section, its metadata the headers above it); None when the call raises.
   */
  datatype Library = Library(
    splitText: (Splitter, string) -> Option<seq<string>>,
    splitHeaders: (Splitter, string) -> Option<seq<Document>>)

  function Contents(ds: seq<Document>): (texts: seq<string>)
    ensures |texts| == |ds|
  {
    seq(|ds|, k requires 0 <= k < |ds| => ds[k].pageContent)
  }

  /** `m` is contained in `into`: every key of `m` is there with the same value. */
  predicate Carries(m: Metadata, into: Metadata) {
    forall key :: key in m ==> key in into && into[key] == m[key]
  }

  /**
   * `splitter.create_documents(texts=[text], metadatas=[m])`: one document per
   * piece of the text, each holding `m`; None when the splitter raises.
   */
  function CreateDocuments(lib: Library, sp: Splitter, text: string, m: Metadata): (r: Option<seq<Document>>)
    ensures r.None? <==> lib.splitText(sp, text).None?
    ensures r.Some? ==> (Contents(r.value) == lib.splitText(sp, text).value
      && forall d :: d in r.value ==> d.metadata == m)
  {
    match lib.splitText(sp, text)
    case None => None
    case Some(pieces) => Some(seq(|pieces|, k requires 0 <= k < |pieces| => Document(pieces[k], m)))
  }

  // ---------------------------------------------------------------------------
  // Repository metadata
  // ---------------------------------------------------------------------------

  /** How the repository metadata joins the file metadata. */
  datatype Convention =
    | Nested  // `{**file_metadata, "repository": repo}` (notebook pipeline)
    | Flat    // `{**file_metadata, **repo}` with "repository_" keys (ingestion pipeline)

  /** The one exception the chunker does not catch: `repo_url.split('/')[-2]` on a URL without '/'. */
  datatype ChunkError = IndexError

  /** The repository metadata for `total` files, named the way the convention names it. */
  function RepoMetadata(conv: Convention, url: string, total: nat): Result<Metadata, ChunkError> {
    var parts := Split(url, "/");
    if |parts| < 2 then Err(IndexError)
    else Ok(RepoFields(conv, url, parts[|parts| - 1], parts[|parts| - 2], total))
  }

  function RepoFields(conv: Convention, url: string, name: string, organization: string, total: nat): Metadata {
    match conv
    case Nested =>
      map["repository_url" := VStr(url), "repository_name" := VStr(name), "organization" := VStr(organization),
          "total_files" := VInt(total), "file_types" := VMap(map[]), "directory_structure" := VMap(map[])]
    case Flat =>
      map["repository_url" := VStr(url), "repository_name" := VStr(name), "repository_organization" := VStr(organization),
          "repository_total_files" := VInt(total), "repository_file_types" := VMap(map[]),
          "repository_directory_structure" := VMap(map[])]
  }

  function OrganizationKey(conv: Convention): string {
    if conv.Nested? then "organization" else "repository_organization"
  }

  function TotalFilesKey(conv: Convention): string {
    if conv.Nested? then "total_files" else "repository_total_files"
  }

  lemma RepoFieldsLookup(conv: Convention, url: string, name: string, organization: string, total: nat)
    ensures var m := RepoFields(conv, url, name, organization, total);
      && m["repository_url"] == VStr(url)
      && m["repository_name"] == VStr(name)
      && m[OrganizationKey(conv)] == VStr(organization)
      && m[TotalFilesKey(conv)] == VInt(total)
  {
  }

  /**
   * The URL's IndexError happens exactly when it holds no '/'; otherwise the
   * name is the text after the last '/', the organisation the segment before
   * it, and the file count is recorded.
   */
  lemma RepoMetadataFields(conv: Convention, url: string, total: nat)
    ensures RepoMetadata(conv, url, total).Err? <==> '/' !in url
    ensures '/' in url ==> var m := RepoMetadata(conv, url, total).value;
      && m["repository_url"] == VStr(url)
      && m["repository_name"] == VStr(Basename(url))
      && m[OrganizationKey(conv)] == VStr(Basename(url[..RFind(url, '/')]))
      && m[TotalFilesKey(conv)] == VInt(total)
  {
    RepoMetadataShape(conv, url, total);
    if '/' in url {
      RepoFieldsLookup(conv, url, Basename(url), Basename(url[..RFind(url, '/')]), total);
    }
  }

  /** The repository fields are built from the last two pieces of the URL, when there are two. */
  lemma RepoMetadataShape(conv: Convention, url: string, total: nat)
    ensures '/' !in url ==> RepoMetadata(conv, url, total).Err?
    ensures '/' in url ==>
      RepoMetadata(conv, url, total) == Ok(RepoFields(conv, url, Basename(url), Basename(url[..RFind(url, '/')]), total))
  {
    SplitLastPieces(url);
  }

  /** The metadata every chunk of a file receives. */
  function Combine(conv: Convention, fileMetadata: Metadata, repo: Metadata): Metadata {
    match conv
    case Nested => fileMetadata["repository" := VMap(repo)]
    case Flat => fileMetadata + repo
  }

  /**
   * What the combination keeps. Nested: the repository sits under "repository"
   * and the file metadata is untouched when it has no such key. Flat: the
   * repository keys win, and the file metadata is untouched when no key clashes.
   */
  lemma CombineKeeps(conv: Convention, fileMetadata: Metadata, repo: Metadata)
    ensures conv.Nested? ==> (Combine(conv, fileMetadata, repo)["repository"] == VMap(repo)
      && ("repository" !in fileMetadata ==> Carries(fileMetadata, Combine(conv, fileMetadata, repo))))
    ensures conv.Flat? ==> (Carries(repo, Combine(conv, fileMetadata, repo))
      && (fileMetadata.Keys !! repo.Keys ==> Carries(fileMetadata, Combine(conv, fileMetadata, repo))))
  {
  }

  /** The file type the chunker reads back from a record's metadata. */
  function ExtOf(m: Metadata): string {
    if "file_type" in m && m["file_type"].VStr? then m["file_type"].s else []
  }

  /** Both extractors store the lower-cased extension under "file_type". */
  lemma ExtOfExtracted(path: string, content: string, parsers: Parsers)
    ensures ExtOf(PipelineMetadata(path, content, parsers)) == FileType(path)
    ensures ExtOf(IngestionMetadata(path, content)) == FileType(path)
  {
    FileTypeStored(path, content, parsers);
  }

  // ---------------------------------------------------------------------------
  // Chunking one file
  // ---------------------------------------------------------------------------

  /** Sections longer than this are re-cut by size. */
  const LongSection: nat := 600

  /** The size splitter for long Markdown sections. */
  const SizeSplitter: Splitter := Recursive(600, 50, ["\n\n", "\n", ". "])

  predicate HasLongSection(sections: seq<Document>) {
    exists k :: 0 <= k < |sections| && |sections[k].pageContent| > LongSection
  }

  /**
   * Each header section re-cut by size, its chunks holding the section's
   * metadata overlaid with the combined metadata. A section whose splitting
   * raises ends the file: the chunks of the sections before it are kept.
   */
  function Resplit(lib: Library, sections: seq<Document>, combined: Metadata): seq<Document>
    decreases |sections|
  {
    if sections == [] then []
    else
      match CreateDocuments(lib, SizeSplitter, sections[0].pageContent, sections[0].metadata + combined)
      case None => []
      case Some(ds) => ds + Resplit(lib, sections[1..], combined)
  }

  /** The header sections kept whole, each with the combined metadata merged into its own. */
  function Overlay(sections: seq<Document>, combined: Metadata): seq<Document> {
    seq(|sections|, k requires 0 <= k < |sections| =>
      Document(sections[k].pageContent, sections[k].metadata + combined))
  }

  /**
   * The chunks of one file. Markdown: the header sections, re-cut by size when
   * any is longer than 600 characters, else kept as they are. Anything else:
   * the pieces of the file's splitter. A split that raises yields nothing.
   */
  function FileChunks(lib: Library, table: map<string, Splitter>, f: FileRecord<Metadata>, combined: Metadata): seq<Document>
    requires "default" in table
  {
    var ext := ExtOf(f.metadata);
    var sp := SplitterFor(table, ext);
    if ext == ".md" then
      match lib.splitHeaders(sp, f.content)
      case None => []
      case Some(sections) => if HasLongSection(sections) then Resplit(lib, sections, combined) else Overlay(sections, combined)
    else
      CreateDocuments(lib, sp, f.content, combined).GetOr([])
  }

  /** The long-section branch: the header sections, re-cut one after the other. */
  method ResplitSections(lib: Library, sections: seq<Document>, combined: Metadata) returns (chunks: seq<Document>)
    ensures chunks == Resplit(lib, sections, combined)
  {
    chunks := [];
    var i := 0;
    while i < |sections|
      invariant 0 <= i <= |sections|
      invariant chunks + Resplit(lib, sections[i..], combined) == Resplit(lib, sections, combined)
    {
      var section := sections[i];
      var smaller := CreateDocuments(lib, SizeSplitter, section.pageContent, section.metadata + combined);
      assert sections[i..][1..] == sections[i + 1..];
      if smaller.None? {
        assert chunks + [] == chunks;
        return;
      }
      assert chunks + smaller.value + Resplit(lib, sections[i + 1..], combined)
        == chunks + (smaller.value + Resplit(lib, sections[i + 1..], combined));
      chunks := chunks + smaller.value;
      i := i + 1;
    }
    assert chunks + [] == chunks;
  }

  /** The short-section branch: `split.metadata.update(combined)` for each section, in place. */
  method OverlaySections(sections: seq<Document>, combined: Metadata) returns (updated: seq<Document>)
    ensures updated == Overlay(sections, combined)
  {
    updated := sections;
    var k := 0;
    while k < |updated|
      invariant 0 <= k <= |updated| == |sections|
      invariant forall j :: 0 <= j < k ==> updated[j] == Document(sections[j].pageContent, sections[j].metadata + combined)
      invariant forall j :: k <= j < |updated| ==> updated[j] == sections[j]
    {
      updated := updated[k := Document(updated[k].pageContent, updated[k].metadata + combined)];
      k := k + 1;
    }
  }

  /** The body of the per-file `try`. */
  method ProcessFile(lib: Library, table: map<string, Splitter>, f: FileRecord<Metadata>, combined: Metadata)
    returns (chunks: seq<Document>)
    requires "default" in table
    ensures chunks == FileChunks(lib, table, f, combined)
  {
    var ext := ExtOf(f.metadata);
    var sp := SplitterFor(table, ext);
    if ext == ".md" {
      var headerSplits := lib.splitHeaders(sp, f.content);
      if headerSplits.None? {
        return [];
      }
      if HasLongSection(headerSplits.value) {
        chunks := ResplitSections(lib, headerSplits.value, combined);
      } else {
        chunks := OverlaySections(headerSplits.value, combined);
      }
    } else {
      var docs := CreateDocuments(lib, sp, f.content, combined);
      chunks := if docs.Some? then docs.value else [];
    }
  }

  // ---------------------------------------------------------------------------
  // Chunking a repository
  // ---------------------------------------------------------------------------

  /** The chunks of all files, in file order. */
  function AllChunks(lib: Library, table: map<string, Splitter>, conv: Convention, repo: Metadata,
                     files: seq<FileRecord<Metadata>>): seq<Document>
    requires "default" in table
    decreases |files|
  {
    if files == [] then []
    else
      var last := files[|files| - 1];
      AllChunks(lib, table, conv, repo, files[..|files| - 1]) + FileChunks(lib, table, last, Combine(conv, last.metadata, repo))
  }

  /**
   * The whole chunker: no chunks without files, the URL's IndexError, else
   * every file's chunks. An empty dump gives no chunks whatever the URL;
   * otherwise the chunker fails exactly when the URL has no '/'.
   */
  function ChunkedContent(lib: Library, table: map<string, Splitter>, conv: Convention,
                          extract: (string, string) -> Metadata, content: string, url: string): (r: Result<seq<Document>, ChunkError>)
    requires "default" in table
    ensures ParseDump(content) == [] ==> r == Ok([])
    ensures r.Err? <==> ParseDump(content) != [] && '/' !in url
  {
    var files := Attach(ParseDump(content), extract);
    RepoMetadataFields(conv, url, |files|);
    if files == [] then Ok([])
    else
      match RepoMetadata(conv, url, |files|)
      case Err(e) => Err(e)
      case Ok(repo) => Ok(AllChunks(lib, table, conv, repo, files))
  }

  /** The loop over the files. */
  method ChunkFiles(lib: Library, table: map<string, Splitter>, conv: Convention, repo: Metadata,
                    files: seq<FileRecord<Metadata>>) returns (processed: seq<Document>)
    requires "default" in table
    ensures processed == AllChunks(lib, table, conv, repo, files)
  {
    processed := [];
    var i := 0;
    while i < |files|
      invariant 0 <= i <= |files|
      invariant processed == AllChunks(lib, table, conv, repo, files[..i])
    {
      var file := files[i];
      var combined := Combine(conv, file.metadata, repo);
      var chunks := ProcessFile(lib, table, file, combined);
      assert files[..i + 1][..i] == files[..i];
      processed := processed + chunks;
      i := i + 1;
    }
    assert files[..i] == files;
  }

  /** `advanced_repository_chunking` of the notebook pipeline. */
  method AdvancedRepositoryChunking(lib: Library, parsers: Parsers, content: string, url: string)
    returns (r: Result<seq<Document>, ChunkError>)
    ensures r == ChunkedContent(lib, PipelineStrategies, Nested, PipelineExtract(parsers), content, url)
  {
    var files := SplitByFiles(content, PipelineExtract(parsers));
    if |files| == 0 {
      return Ok([]);
    }
    var repo := RepoMetadata(Nested, url, |files|);
    if repo.Err? {
      return Err(repo.error);
    }
    var chunks := ChunkFiles(lib, PipelineStrategies, Nested, repo.value, files);
    return Ok(chunks);
  }

  /** `__chunk_content` of the ingestion pipeline. */
  method ChunkContent(lib: Library, content: string, url: string) returns (r: Result<seq<Document>, ChunkError>)
    ensures r == ChunkedContent(lib, IngestionStrategies, Flat, IngestionMetadata, content, url)
  {
    var files := SplitByFiles(content, IngestionMetadata);
    if |files| == 0 {
      return Ok([]);
    }
    var repo := RepoMetadata(Flat, url, |files|);
    if repo.Err? {
      return Err(repo.error);
    }
    var chunks := ChunkFiles(lib, IngestionStrategies, Flat, repo.value, files);
    return Ok(chunks);
  }

  // ---------------------------------------------------------------------------
  // Properties
  // ---------------------------------------------------------------------------

  /** Re-cutting stops at the first section whose split raises: the later sections add nothing. */
  lemma {:induction false} ResplitStopsAtFailure(lib: Library, sections: seq<Document>, combined: Metadata, i: nat)
    requires i < |sections|
    requires lib.splitText(SizeSplitter, sections[i].pageContent).None?
    ensures Resplit(lib, sections, combined) == Resplit(lib, sections[..i], combined)
    decreases i
  {
    if i > 0 {
      assert sections[1..][..i - 1] == sections[..i][1..];
      assert sections[1..][i - 1] == sections[i];
      ResplitStopsAtFailure(lib, sections[1..], combined, i - 1);
    }
  }

  /** Every re-cut chunk holds its section's metadata overlaid with the combined metadata, for some section. */
  lemma {:induction false} ResplitCarries(lib: Library, sections: seq<Document>, combined: Metadata)
    ensures forall d :: d in Resplit(lib, sections, combined) ==>
      exists k :: 0 <= k < |sections| && d.metadata == sections[k].metadata + combined
    decreases |sections|
  {
    if sections != [] {
      ResplitCarries(lib, sections[1..], combined);
      forall d | d in Resplit(lib, sections, combined)
        ensures exists k :: 0 <= k < |sections| && d.metadata == sections[k].metadata + combined
      {
        var docs := CreateDocuments(lib, SizeSplitter, sections[0].pageContent, sections[0].metadata + combined);
        if d !in docs.value {
          var k :| 0 <= k < |sections[1..]| && d.metadata == sections[1..][k].metadata + combined;
          assert sections[1..][k] == sections[k + 1];
        }
      }
    }
  }

  /**
   * Every chunk of a file carries the combined metadata; outside Markdown its
   * metadata is exactly the combined metadata.
   */
  lemma FileChunksCarry(lib: Library, table: map<string, Splitter>, f: FileRecord<Metadata>, combined: Metadata)
    requires "default" in table
    ensures forall d :: d in FileChunks(lib, table, f, combined) ==> Carries(combined, d.metadata)
    ensures ExtOf(f.metadata) != ".md" ==> forall d :: d in FileChunks(lib, table, f, combined) ==> d.metadata == combined
  {
    var ext := ExtOf(f.metadata);
    if ext == ".md" {
      var sections := lib.splitHeaders(SplitterFor(table, ext), f.content);
      if sections.Some? {
        if HasLongSection(sections.value) {
          ResplitCarries(lib, sections.value, combined);
        } else {
          forall d | d in Overlay(sections.value, combined)
            ensures Carries(combined, d.metadata)
          {
            var k :| 0 <= k < |sections.value| && d == Overlay(sections.value, combined)[k];
          }
        }
      }
    }
  }

  /**
   * Markdown without a long section keeps its header sections as the chunks,
   * one each, in order, each section's metadata overlaid by the combined
   * metadata.
   */
  lemma MarkdownSections(lib: Library, table: map<string, Splitter>, f: FileRecord<Metadata>, combined: Metadata)
    requires "default" in table && ExtOf(f.metadata) == ".md"
    requires lib.splitHeaders(SplitterFor(table, ".md"), f.content).Some?
    ensures var sections := lib.splitHeaders(SplitterFor(table, ".md"), f.content).value;
      var chunks := FileChunks(lib, table, f, combined);
      !HasLongSection(sections) ==> (Contents(chunks) == Contents(sections)
        && forall k :: 0 <= k < |chunks| ==> chunks[k].metadata == sections[k].metadata + combined)
  {
  }

  /** The pieces of each section, one list after the other. */
  function Concat(pieces: seq<seq<string>>): seq<string> {
    if pieces == [] then [] else pieces[0] + Concat(pieces[1..])
  }

  /** What the size splitter makes of each section. */
  function SectionPieces(lib: Library, sections: seq<Document>): seq<seq<string>>
    requires forall k :: 0 <= k < |sections| ==> lib.splitText(SizeSplitter, sections[k].pageContent).Some?
  {
    seq(|sections|, k requires 0 <= k < |sections| => lib.splitText(SizeSplitter, sections[k].pageContent).value)
  }

  lemma ContentsAppend(a: seq<Document>, b: seq<Document>)
    ensures Contents(a + b) == Contents(a) + Contents(b)
  {
  }

  /**
   * When no split raises, re-cutting sends every section through the size
   * splitter, the short ones included: the chunk texts are all the sections'
   * pieces in section order.
   */
  lemma {:induction false} ResplitEverySection(lib: Library, sections: seq<Document>, combined: Metadata)
    requires forall k :: 0 <= k < |sections| ==> lib.splitText(SizeSplitter, sections[k].pageContent).Some?
    ensures Contents(Resplit(lib, sections, combined)) == Concat(SectionPieces(lib, sections))
    decreases |sections|
  {
    if sections != [] {
      var docs := CreateDocuments(lib, SizeSplitter, sections[0].pageContent, sections[0].metadata + combined);
      assert forall k :: 0 <= k < |sections[1..]| ==> sections[1..][k] == sections[k + 1];
      ResplitEverySection(lib, sections[1..], combined);
      ContentsAppend(docs.value, Resplit(lib, sections[1..], combined));
      assert SectionPieces(lib, sections)[1..] == SectionPieces(lib, sections[1..]);
    }
  }

  lemma {:induction false} AllChunksAppend(lib: Library, table: map<string, Splitter>, conv: Convention, repo: Metadata,
                                           a: seq<FileRecord<Metadata>>, b: seq<FileRecord<Metadata>>)
    requires "default" in table
    ensures AllChunks(lib, table, conv, repo, a + b) == AllChunks(lib, table, conv, repo, a) + AllChunks(lib, table, conv, repo, b)
    decreases |b|
  {
    if b != [] {
      var b' := b[..|b| - 1];
      assert (a + b)[..|a + b| - 1] == a + b';
      AllChunksAppend(lib, table, conv, repo, a, b');
    } else {
      assert a + b == a;
    }
  }

  /** A file whose chunking raises adds nothing; the files around it are chunked as if it were absent. */
  lemma FailingFileSkipped(lib: Library, table: map<string, Splitter>, conv: Convention, repo: Metadata,
                           files: seq<FileRecord<Metadata>>, i: nat)
    requires "default" in table && i < |files|
    requires FileChunks(lib, table, files[i], Combine(conv, files[i].metadata, repo)) == []
    ensures AllChunks(lib, table, conv, repo, files)
      == AllChunks(lib, table, conv, repo, files[..i]) + AllChunks(lib, table, conv, repo, files[i + 1..])
  {
    var front, x, back := files[..i], files[i], files[i + 1..];
    assert files == front + [x] + back;
    AllChunksAppend(lib, table, conv, repo, front + [x], back);
    AllChunksAppend(lib, table, conv, repo, front, [x]);
    assert AllChunks(lib, table, conv, repo, [x]) == [] by {
      assert [x][..0] == [];
    }
    assert AllChunks(lib, table, conv, repo, front + [x]) == AllChunks(lib, table, conv, repo, front);
  }

  /** Every chunk of the repository carries the combined metadata of the file it came from. */
  lemma {:induction false} ChunksCarryFileMetadata(lib: Library, table: map<string, Splitter>, conv: Convention, repo: Metadata,
                                                   files: seq<FileRecord<Metadata>>)
    requires "default" in table
    ensures forall d :: d in AllChunks(lib, table, conv, repo, files) ==>
      exists f :: f in files && Carries(Combine(conv, f.metadata, repo), d.metadata)
    decreases |files|
  {
    if files != [] {
      var front := files[..|files| - 1];
      var last := files[|files| - 1];
      ChunksCarryFileMetadata(lib, table, conv, repo, front);
      FileChunksCarry(lib, table, last, Combine(conv, last.metadata, repo));
      forall d | d in AllChunks(lib, table, conv, repo, files)
        ensures exists f :: f in files && Carries(Combine(conv, f.metadata, repo), d.metadata)
      {
        if d in AllChunks(lib, table, conv, repo, front) {
          var f :| f in front && Carries(Combine(conv, f.metadata, repo), d.metadata);
          assert f in files;
        } else {
          assert last in files;
        }
      }
    }
  }

  /** The record at position `k` of an attached list carries the metadata of the `k`-th raw file. */
  lemma AttachedRecord(raw: seq<RawFile>, extract: (string, string) -> Metadata, rec: FileRecord<Metadata>)
    requires rec in Attach(raw, extract)
    ensures exists f :: f in raw && rec.metadata == extract(f.path, f.content)
  {
    var files := Attach(raw, extract);
    var k :| 0 <= k < |files| && files[k] == rec;
    assert raw[k] in raw;
  }

  lemma CarriesTransitive(a: Metadata, b: Metadata, c: Metadata)
    requires Carries(a, b) && Carries(b, c)
    ensures Carries(a, c)
  {
  }

  /** The notebook pipeline's file metadata has no "repository" key to be overwritten. */
  lemma NoRepositoryKey(path: string, content: string, parsers: Parsers)
    ensures "repository" !in PipelineMetadata(path, content, parsers)
  {
    assert "repository" !in BaseKeys + {"file_level_metadata"};
  }

  /** The ingestion pipeline's base fields share no key with the flat repository metadata. */
  lemma BaseKeysApart(url: string, total: nat)
    requires RepoMetadata(Flat, url, total).Ok?
    ensures BaseKeys !! RepoMetadata(Flat, url, total).value.Keys
  {
    var parts := Split(url, "/");
    var repo := RepoFields(Flat, url, parts[|parts| - 1], parts[|parts| - 2], total);
    assert repo.Keys == {"repository_url", "repository_name", "repository_organization", "repository_total_files",
                         "repository_file_types", "repository_directory_structure"};
  }

  /** A record of the notebook pipeline holds its file's metadata, which has no "repository" key. */
  lemma PipelineRecord(raw: seq<RawFile>, parsers: Parsers, rec: FileRecord<Metadata>)
    requires rec in Attach(raw, PipelineExtract(parsers))
    ensures "repository" !in rec.metadata
    ensures exists f :: f in raw && rec.metadata == PipelineMetadata(f.path, f.content, parsers)
  {
    AttachedRecord(raw, PipelineExtract(parsers), rec);
    var f :| f in raw && rec.metadata == PipelineExtract(parsers)(f.path, f.content);
    assert rec.metadata == PipelineMetadata(f.path, f.content, parsers);
    NoRepositoryKey(f.path, f.content, parsers);
  }

  /** A record of the ingestion pipeline holds its file's eight base fields. */
  lemma IngestionRecord(raw: seq<RawFile>, rec: FileRecord<Metadata>)
    requires rec in Attach(raw, IngestionMetadata)
    ensures rec.metadata.Keys == BaseKeys
    ensures exists f :: f in raw && rec.metadata == IngestionMetadata(f.path, f.content)
  {
    AttachedRecord(raw, IngestionMetadata, rec);
  }

  /** A chunk carrying nested combined metadata holds the repository and, absent a clash, the file's metadata. */
  lemma NestedChunk(m: Metadata, repo: Metadata, d: Document)
    requires "repository" !in m
    requires Carries(Combine(Nested, m, repo), d.metadata)
    ensures "repository" in d.metadata && d.metadata["repository"] == VMap(repo)
    ensures Carries(m, d.metadata)
  {
    CombineKeeps(Nested, m, repo);
    CarriesTransitive(m, Combine(Nested, m, repo), d.metadata);
  }

  /** A chunk carrying flat combined metadata holds the repository keys and, absent a clash, the file's metadata. */
  lemma FlatChunk(m: Metadata, repo: Metadata, d: Document)
    requires m.Keys !! repo.Keys
    requires Carries(Combine(Flat, m, repo), d.metadata)
    ensures Carries(repo, d.metadata) && Carries(m, d.metadata)
  {
    CombineKeeps(Flat, m, repo);
    CarriesTransitive(m, Combine(Flat, m, repo), d.metadata);
    CarriesTransitive(repo, Combine(Flat, m, repo), d.metadata);
  }

  /** One chunk of the notebook pipeline, traced back to the file it came from. */
  lemma PipelineChunk(raw: seq<RawFile>, parsers: Parsers, repo: Metadata, rec: FileRecord<Metadata>, d: Document)
    requires rec in Attach(raw, PipelineExtract(parsers))
    requires Carries(Combine(Nested, rec.metadata, repo), d.metadata)
    ensures "repository" in d.metadata && d.metadata["repository"] == VMap(repo)
    ensures exists f :: f in raw && Carries(PipelineMetadata(f.path, f.content, parsers), d.metadata)
  {
    PipelineRecord(raw, parsers, rec);
    NestedChunk(rec.metadata, repo, d);
  }

  /**
   * In the notebook pipeline every chunk holds the repository metadata under
   * "repository" and all of its file's metadata.
   */
  lemma PipelineChunkMetadata(lib: Library, parsers: Parsers, content: string, url: string)
    requires ChunkedContent(lib, PipelineStrategies, Nested, PipelineExtract(parsers), content, url).Ok?
    ensures forall d :: d in ChunkedContent(lib, PipelineStrategies, Nested, PipelineExtract(parsers), content, url).value ==>
      && "repository" in d.metadata && d.metadata["repository"].VMap?
      && RepoMetadata(Nested, url, |ParseDump(content)|) == Ok(d.metadata["repository"].fields)
      && exists f :: f in ParseDump(content) && Carries(PipelineMetadata(f.path, f.content, parsers), d.metadata)
  {
    var raw := ParseDump(content);
    var files := Attach(raw, PipelineExtract(parsers));
    if files != [] {
      var repo := RepoMetadata(Nested, url, |raw|).value;
      var chunks := AllChunks(lib, PipelineStrategies, Nested, repo, files);
      assert ChunkedContent(lib, PipelineStrategies, Nested, PipelineExtract(parsers), content, url) == Ok(chunks);
      ChunksCarryFileMetadata(lib, PipelineStrategies, Nested, repo, files);
      forall d | d in chunks
        ensures "repository" in d.metadata && d.metadata["repository"] == VMap(repo)
        ensures exists f :: f in raw && Carries(PipelineMetadata(f.path, f.content, parsers), d.metadata)
      {
        var rec :| rec in files && Carries(Combine(Nested, rec.metadata, repo), d.metadata);
        PipelineChunk(raw, parsers, repo, rec, d);
      }
    }
  }

  /** In the ingestion pipeline every chunk holds the repository keys and all eight base fields of its file. */
  lemma IngestionChunkMetadata(lib: Library, content: string, url: string)
    requires ChunkedContent(lib, IngestionStrategies, Flat, IngestionMetadata, content, url).Ok?
    ensures forall d :: d in ChunkedContent(lib, IngestionStrategies, Flat, IngestionMetadata, content, url).value ==>
      && RepoMetadata(Flat, url, |ParseDump(content)|).Ok?
      && Carries(RepoMetadata(Flat, url, |ParseDump(content)|).value, d.metadata)
      && exists f :: f in ParseDump(content) && Carries(IngestionMetadata(f.path, f.content), d.metadata)
  {
    var raw := ParseDump(content);
    var files := Attach(raw, IngestionMetadata);
    if files != [] {
      var repo := RepoMetadata(Flat, url, |raw|).value;
      ChunksCarryFileMetadata(lib, IngestionStrategies, Flat, repo, files);
      forall d | d in AllChunks(lib, IngestionStrategies, Flat, repo, files)
        ensures Carries(repo, d.metadata)
        ensures exists f :: f in raw && Carries(IngestionMetadata(f.path, f.content), d.metadata)
      {
        var rec :| rec in files && Carries(Combine(Flat, rec.metadata, repo), d.metadata);
        IngestionRecord(raw, rec);
        BaseKeysApart(url, |raw|);
        FlatChunk(rec.metadata, repo, d);
      }
    }
  }
}
