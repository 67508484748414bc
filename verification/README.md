# moonbeans ingestion core, modelled in Dafny

moonbeans is a retrieval-augmented chat demo. Its ingestion side takes a
gitingest dump of a whole repository, cuts it into per-file records, attaches
metadata to each file, chunks every file with a splitter chosen by its
extension, and stores the chunks with combined file and repository metadata
in a Qdrant vector store. Two Python variants of that pipeline exist: the
notebook `pipeline.py` nests the repository metadata under `"repository"`,
while `ingestion_pipeline.py` flattens it into `repository_*` keys. Three
small pieces of data logic sit beside them:

- the C# converter between the API's file-metadata record and a Qdrant payload;
- the AppHost's chat configuration, which classifies model providers and builds
  the vector-store connection name;
- the notebook's connection-string helper.

This project models that core and proves properties about it:

- `DumpParser` is the dump splitter shared by both pipelines
  (`split_by_files` and `__split_by_files` are the same loop). It is a method
  with a loop, proved equal to a state-machine specification. Its round trip
  is proved: dumping well-formed files and parsing the dump gives them back.
- `FileMetadata` covers the base statistics and the per-extension
  `file_level_metadata`. Its parts are the Python entity extractor over an
  abstract syntax tree (`PythonAst`, `PythonEntities`) and the Markdown and
  Jinja extractors (`MarkdownMetadata`, `TemplateMetadata`). Each regular
  expression those extractors use is a hand-analysed matcher (`RegexScan`).
- `Chunking` holds the strategy tables and the per-file and per-repository
  chunking loops, for both metadata conventions. The LangChain splitters are
  uninterpreted parameters.
- `QdrantConverter` and `Int64Text` cover `ToQdrantFields`, `FromQdrantFields`
  and their helpers. The `MapField` the helpers fill in place is a class, and
  the partial round trip is proved.
- `ChatConfiguration` and `ConfigHelper` cover the configuration string logic.
- `PyStr`, `PyPath`, `Values`, `Wrappers` and `SeqFacts` are the Python
  built-ins and value shapes the rest relies on.

## Model

| member | source | states |
|---|---|---|
| `DumpParser.Delimiter` | src/AspireRagDemo.AppHost/Jupyter/Notebooks/code/pipeline.py:264 | the dump delimiter is exactly 48 `=` characters |
| `DumpParser.SplitByFiles` | src/AspireRagDemo.AppHost/Jupyter/Notebooks/code/pipeline.py:256-308 | empty content gives no files; otherwise the loop's result is the specification's file list, in dump order, each record holding the extractor's metadata for its own path and content; the same method models `__split_by_files` |
| `DumpParser.ParseDump` | src/AspireRagDemo.AppHost/Jupyter/Notebooks/code/pipeline.py:264-300 | every file the parser returns has a non-empty path with no surrounding whitespace, as the `if current_file:` tests and the stripped header path guarantee |
| `DumpParser.RunPaths` | src/AspireRagDemo.AppHost/Jupyter/Notebooks/code/pipeline.py:271-300 | running the loop over any parts appends exactly the non-empty header paths of those parts, in order, to the emitted paths |
| `DumpParser.ParsedPathsAreHeaderPaths` | src/AspireRagDemo.AppHost/Jupyter/Notebooks/code/pipeline.py:264-300 | for non-empty content there is one file per header with a non-empty path, in dump order, and the last open file is flushed |
| `DumpParser.SplitDump` | src/AspireRagDemo.AppHost/Jupyter/Notebooks/code/pipeline.py:264 | cutting a dump of delimiter-free files on the delimiter gives an empty leading part, then a header part and a body part per file |
| `DumpParser.RunPieces` | src/AspireRagDemo.AppHost/Jupyter/Notebooks/code/pipeline.py:271-300 | running the loop over the header and body parts of parseable files appends exactly those files, paths and contents, after whatever it had already produced |
| `DumpParser.ParseDumpRoundTrip` | src/AspireRagDemo.AppHost/Jupyter/Notebooks/code/pipeline.py:256-308 | parsing the gitingest dump of well-formed files gives back the same files, paths and contents, in the same order |
| `PyStr.Strip` | src/AspireRagDemo.AppHost/Jupyter/Notebooks/code/pipeline.py:208 | trimming never lengthens, gives the empty string iff the text is all whitespace, and otherwise starts and ends with a non-space character |
| `PyStr.Utf8Length` | src/AspireRagDemo.AppHost/Jupyter/Notebooks/code/pipeline.py:206 | the UTF-8 byte length lies between one and four bytes per character |
| `PyStr.SplitLines` | src/AspireRagDemo.AppHost/Jupyter/Notebooks/code/pipeline.py:207 | no line of `splitlines()` holds a line-boundary character (the line breaks, `\x0b`, `\x0c`, `\x1c`–`\x1e`, `\x85`, U+2028, U+2029) |
| `PyStr.LineCountBounds` | src/AspireRagDemo.AppHost/Jupyter/Notebooks/code/pipeline.py:207 | `splitlines()` gives at most one line per character, and no lines iff the text is empty |
| `PyStr.Split` | src/AspireRagDemo.AppHost/Jupyter/Notebooks/code/config_helper.py:25 | `str.split` with a non-empty separator always gives at least one piece; `PyStr.SplitPiecesFree`, `PyStr.JoinSplit` and `PyStr.SplitJoin` pin down which |
| `PyStr.SplitPiecesFree` | src/AspireRagDemo.AppHost/Jupyter/Notebooks/code/config_helper.py:25 | no piece of `s.split(sep)` contains `sep` |
| `PyStr.Join` | src/AspireRagDemo.AppHost/Jupyter/Notebooks/code/pipeline.py:282 | `sep.join(parts)` begins with the first part |
| `PyStr.JoinSplit` | src/AspireRagDemo.AppHost/Jupyter/Notebooks/code/config_helper.py:25 | joining the pieces of `s.split(sep)` with `sep` gives `s` back |
| `PyStr.SplitJoin` | src/AspireRagDemo.AppHost/Jupyter/Notebooks/code/config_helper.py:25 | splitting the join of pieces in which no separator occurrence crosses a piece boundary gives the pieces back |
| `PyPath.SplitExt` | src/AspireRagDemo.AppHost/Jupyter/Notebooks/code/pipeline.py:200 | the extension is a suffix of the path: empty, or a dot followed by text with no dot and no slash |
| `PyPath.SplitExtIsLastDot` | src/AspireRagDemo.AppHost/Jupyter/Notebooks/code/pipeline.py:200 | a non-empty extension starts at a dot of the last path component with a non-dot before it in that component; an empty one means no dot of the last component has a non-dot before it |
| `PyPath.Basename` | src/AspireRagDemo.AppHost/Jupyter/Notebooks/code/pipeline.py:204 | the base name is a slash-free suffix of the path |
| `PyPath.BasenameFollowsLastSlash` | src/AspireRagDemo.AppHost/Jupyter/Notebooks/code/pipeline.py:204 | the base name is the whole path or is preceded by a `/`, so every longer suffix holds a `/` |
| `PyPath.Dirname` | src/AspireRagDemo.AppHost/Jupyter/Notebooks/code/pipeline.py:205 | the directory is a prefix of the path, and empty when the path holds no `/` |
| `PyPath.DirnameStripsSlashes` | src/AspireRagDemo.AppHost/Jupyter/Notebooks/code/pipeline.py:205 | the directory is the path up to and including its last `/`, kept whole when that is only slashes and otherwise without its trailing slashes, ending in a non-slash |
| `PyPath.DirnameBasename` | src/AspireRagDemo.AppHost/Jupyter/Notebooks/code/pipeline.py:204-205 | a path is its directory, a run of slashes and its base name; the run is non-empty when the path holds a `/` and the directory is not all slashes |
| `PyPath.FileTypeShape` | src/AspireRagDemo.AppHost/Jupyter/Notebooks/code/pipeline.py:200 | `file_type` is empty or a dot followed by dot- and slash-free text, with no upper-case ASCII letter |
| `PyPath.SplitLastPieces` | src/AspireRagDemo.AppHost/Jupyter/Notebooks/code/pipeline.py:332-333 | the last `/`-segment of a URL is its base name; there are two segments or more iff it holds a `/`, and then the second-to-last segment is the base name of what precedes the last `/` |
| `FileMetadata.BaseMetadata` | src/AspireRagDemo.AppHost/Jupyter/Notebooks/code/pipeline.py:200-209 | the base metadata has exactly the eight base keys |
| `FileMetadata.BaseMetadataFields` | src/AspireRagDemo.AppHost/Jupyter/Notebooks/code/pipeline.py:200-209 | `is_empty` holds iff the content is all whitespace; `has_shebang` holds iff the content starts with `#!`, and is false when it is empty; `size_bytes` is between one and four bytes per character; `num_lines` is at most one per character and zero iff the content is empty; `file_type` has the extension shape |
| `FileMetadata.IngestionMetadata` | src/AspireRagDemo.AppHost/Jupyter/Notebooks/code/ingestion_pipeline.py:214-230 | the ingestion pipeline's metadata is exactly the eight base fields, with nothing extension-specific |
| `FileMetadata.ImportAt` | src/AspireRagDemo.AppHost/Jupyter/Notebooks/code/pipeline.py:220 | an import match starts at the beginning of a line with `from` or `import`, and captures a non-empty run of non-whitespace characters |
| `FileMetadata.OfKind` | src/AspireRagDemo.AppHost/Jupyter/Notebooks/code/pipeline.py:217-218 | the `classes` and `functions` lists hold exactly the entities of that type, and no more than there are entities |
| `FileMetadata.Documented` | src/AspireRagDemo.AppHost/Jupyter/Notebooks/code/pipeline.py:221 | the documented count never exceeds the number of entities |
| `FileMetadata.DocCoverage` | src/AspireRagDemo.AppHost/Jupyter/Notebooks/code/pipeline.py:221 | `doc_coverage` is 0 without entities; otherwise it is documented/total with total = the number of entities and documented ≤ total, so it lies in [0,1] |
| `FileMetadata.DocumentedBounds` | src/AspireRagDemo.AppHost/Jupyter/Notebooks/code/pipeline.py:221 | coverage counts every entity when all are documented, and none when none are |
| `FileMetadata.KindsPartition` | src/AspireRagDemo.AppHost/Jupyter/Notebooks/code/pipeline.py:217-218 | when every entity is a class or a function, the two lists together account for all of them |
| `FileMetadata.PythonFields` | src/AspireRagDemo.AppHost/Jupyter/Notebooks/code/pipeline.py:214-222 | a `.py` file gets exactly `classes`, `functions`, `has_main`, `imports` and `doc_coverage` |
| `FileMetadata.PythonFieldsPartition` | src/AspireRagDemo.AppHost/Jupyter/Notebooks/code/pipeline.py:215-218 | for any parse outcome, `classes` and `functions` together hold every extracted entity |
| `FileMetadata.Structure` | src/AspireRagDemo.AppHost/Jupyter/Notebooks/code/pipeline.py:234-252 | a YAML or JSON file whose loader raises gets no entry; otherwise it gets exactly one structure entry with `top_level_keys` and an `is_list`/`is_array` flag that holds iff the document is a list |
| `FileMetadata.PipelineMetadata` | src/AspireRagDemo.AppHost/Jupyter/Notebooks/code/pipeline.py:196-254 | the notebook metadata is the eight base fields, unchanged, plus `file_level_metadata` |
| `FileMetadata.FileLevelMetadata` | src/AspireRagDemo.AppHost/Jupyter/Notebooks/code/pipeline.py:213-252 | `.py` gives exactly the five Python keys, `.md` the four markdown keys, `.html`/`.jinja` the five template keys; `.yml`/`.yaml` give at most `yaml_structure` and `.json` at most `json_structure` |
| `FileMetadata.FileLevelByExtension` | src/AspireRagDemo.AppHost/Jupyter/Notebooks/code/pipeline.py:213-252 | an extension outside `.py .md .html .jinja .yml .yaml .json` gets empty file-level metadata; `.html` gets the template defaults |
| `PythonAst.WalkIsPermutation` | src/AspireRagDemo.AppHost/Jupyter/Notebooks/code/MetadataExtractor.py:34 | the breadth-first `ast.walk` visits every node of the tree exactly once: its visit list is a permutation of the preorder and has one entry per node |
| `PythonEntities.EntityOf` | src/AspireRagDemo.AppHost/Jupyter/Notebooks/code/MetadataExtractor.py:53-62 | an entity's type is `class` iff its node is a ClassDef and `function` otherwise; it keeps the node's name and has no parent |
| `PythonEntities.CollectDependencies` | src/AspireRagDemo.AppHost/Jupyter/Notebooks/code/MetadataExtractor.py:46-51 | the loop over the subtree's walk collects the import names of every Import and the module of every ImportFrom, in walk order |
| `PythonEntities.ExtractPythonEntities` | src/AspireRagDemo.AppHost/Jupyter/Notebooks/code/MetadataExtractor.py:28-67 | a SyntaxError gives no entities; otherwise the loop over the walk yields one entity per definition node, in walk order |
| `PythonEntities.EveryDefinitionOnce` | src/AspireRagDemo.AppHost/Jupyter/Notebooks/code/MetadataExtractor.py:34-35 | every function, async-function and class node, nested ones included, gives exactly one entity: the same multiset as a preorder traversal |
| `PythonEntities.EntityMembership` | src/AspireRagDemo.AppHost/Jupyter/Notebooks/code/MetadataExtractor.py:34-63 | an entity is extracted iff it is the entity of some definition node of the tree |
| `PythonEntities.EntityKinds` | src/AspireRagDemo.AppHost/Jupyter/Notebooks/code/MetadataExtractor.py:55 | every extracted entity has type `class` or `function` |
| `PythonEntities.DependenciesOfSubtree` | src/AspireRagDemo.AppHost/Jupyter/Notebooks/code/MetadataExtractor.py:46-61 | a name is among an entity's deduplicated dependencies iff some Import or ImportFrom in its whole subtree names it |
| `PythonEntities.RelativeImportIsNone` | src/AspireRagDemo.AppHost/Jupyter/Notebooks/code/MetadataExtractor.py:50-51 | a relative `from . import x` anywhere in the subtree puts None among the dependencies |
| `RegexScan.FindAllSound` | src/AspireRagDemo.AppHost/Jupyter/Notebooks/code/MetadataExtractor.py:120 | every value `findall` reports is what the pattern matched at some start position |
| `RegexScan.SearchIsFirst` | src/AspireRagDemo.AppHost/Jupyter/Notebooks/code/MetadataExtractor.py:115 | `re.search` returns exactly the first value `re.findall` would report, and nothing when it reports none |
| `RegexScan.FindAllInOrder` | src/AspireRagDemo.AppHost/Jupyter/Notebooks/code/MetadataExtractor.py:132 | `re.findall` reports its values in text order: the k-th value is the match at the k-th start position, start positions increase and matches do not overlap |
| `MarkdownMetadata.HeaderAt` | src/AspireRagDemo.AppHost/Jupyter/Notebooks/code/MetadataExtractor.py:80 | a header match starts a line of 1–6 `#` followed by whitespace, its level is the number of `#` and its text is non-empty and on one line; every such line followed by some non-space text matches, with that level |
| `MarkdownMetadata.HeadersFromHeaderLines` | src/AspireRagDemo.AppHost/Jupyter/Notebooks/code/MetadataExtractor.py:80-81 | every reported header comes from a header line of its level, and its text is non-empty and one line |
| `MarkdownMetadata.HeaderTextFromNextLine` | src/AspireRagDemo.AppHost/Jupyter/Notebooks/code/MetadataExtractor.py:80 | on a header line of level h, the header is (h, text) where the text runs from the first non-space character after the `#` run to the end of its line; since `\s` matches line breaks, that character may lie on a later line |
| `MarkdownMetadata.LinkAt` | src/AspireRagDemo.AppHost/Jupyter/Notebooks/code/MetadataExtractor.py:84 | a link match is `[text](url)` with a non-empty text free of `]` and a non-empty url free of `)` |
| `MarkdownMetadata.LinkRoundTrip` | src/AspireRagDemo.AppHost/Jupyter/Notebooks/code/MetadataExtractor.py:84-85 | any such `[text](url)` is read back as exactly that text and url |
| `MarkdownMetadata.CodeBlockAt` | src/AspireRagDemo.AppHost/Jupyter/Notebooks/code/MetadataExtractor.py:88 | a code-block match is a fence, an optional word tag, a line break, and the shortest text up to the next fence; the tag is absent iff the line break follows the fence directly |
| `MarkdownMetadata.FenceLanguageAt` | src/AspireRagDemo.AppHost/Jupyter/Notebooks/code/MetadataExtractor.py:88-89 | a block's reported language is `text` when the fence has no tag, otherwise the tag |
| `MarkdownMetadata.CodeBlockLanguages` | src/AspireRagDemo.AppHost/Jupyter/Notebooks/code/MetadataExtractor.py:88-89 | every reported code block's language is that of some fence in the text |
| `MarkdownMetadata.FrontmatterText` | src/AspireRagDemo.AppHost/Jupyter/Notebooks/code/MetadataExtractor.py:94 | the frontmatter group is the text between the leading `---` line and the first following `\n---` |
| `MarkdownMetadata.FrontmatterRoundTrip` | src/AspireRagDemo.AppHost/Jupyter/Notebooks/code/MetadataExtractor.py:94-96 | a frontmatter block with no inner `\n---` is cut out exactly |
| `MarkdownMetadata.Frontmatter` | src/AspireRagDemo.AppHost/Jupyter/Notebooks/code/MetadataExtractor.py:92-98 | frontmatter is None unless the text starts with `---`, has a closing `---` and the YAML loader succeeds; any other value is what the loader returned for the block |
| `MarkdownMetadata.ExtractMarkdownMetadata` | src/AspireRagDemo.AppHost/Jupyter/Notebooks/code/MetadataExtractor.py:70-100 | every header comes from a header line of its level with non-empty one-line text; every link is the link pattern's match at some position; every code-block language comes from a fence; a frontmatter other than None is the loader's value of the block between the dashes |
| `MarkdownMetadata.MarkdownFields` | src/AspireRagDemo.AppHost/Jupyter/Notebooks/code/MetadataExtractor.py:72-77 | the markdown metadata has exactly `headers`, `links`, `code_blocks` and `frontmatter` |
| `TemplateMetadata.QuotedAt` | src/AspireRagDemo.AppHost/Jupyter/Notebooks/code/MetadataExtractor.py:115 | a quoted target is non-empty and on one line, between quotes of either kind, with no quote after its first character |
| `TemplateMetadata.QuotedRoundTrip` | src/AspireRagDemo.AppHost/Jupyter/Notebooks/code/MetadataExtractor.py:115 | a target free of quotes and line breaks, between quotes, is read back unchanged |
| `TemplateMetadata.QuotedTagAt` | src/AspireRagDemo.AppHost/Jupyter/Notebooks/code/MetadataExtractor.py:124 | an `extends` or `include` match starts with `{%` and captures a non-empty one-line target |
| `TemplateMetadata.ExtendsRoundTrip` | src/AspireRagDemo.AppHost/Jupyter/Notebooks/code/MetadataExtractor.py:115-117 | `{% extends "target"` reads back the target, whichever quotes surround it |
| `TemplateMetadata.NamedTagAt` | src/AspireRagDemo.AppHost/Jupyter/Notebooks/code/MetadataExtractor.py:120 | a `block` or `macro` match starts with `{%` and captures a non-empty run of word characters |
| `TemplateMetadata.VariableAt` | src/AspireRagDemo.AppHost/Jupyter/Notebooks/code/MetadataExtractor.py:132 | a variable match is `{{body}}` with a non-empty one-line body and no earlier `}}` after its first character |
| `TemplateMetadata.VariableRoundTrip` | src/AspireRagDemo.AppHost/Jupyter/Notebooks/code/MetadataExtractor.py:132-133 | a `{{ … }}` whose body holds no `}}` and no line break is read back as that body |
| `TemplateMetadata.ExtractTemplateMetadata` | src/AspireRagDemo.AppHost/Jupyter/Notebooks/code/MetadataExtractor.py:103-135 | any file type other than `.jinja` gets the defaults; for `.jinja`, `extends` is the first target the extends pattern reports, or None |
| `TemplateMetadata.VariablesAreStrippedBodies` | src/AspireRagDemo.AppHost/Jupyter/Notebooks/code/MetadataExtractor.py:132-133 | there is one variable per `{{ … }}` match; the k-th variable is the stripped body of the k-th match, the match positions increase and each match ends before the next begins |
| `TemplateMetadata.TemplateFields` | src/AspireRagDemo.AppHost/Jupyter/Notebooks/code/MetadataExtractor.py:105-111 | the template metadata has exactly `blocks`, `extends`, `includes`, `macros` and `variables` |
| `Chunking.StrategyTables` | src/AspireRagDemo.AppHost/Jupyter/Notebooks/code/ingestion_pipeline.py:256-285 | the ingestion table holds only `.md`, `.yml`, `.yaml` and `default`, each as in the notebook table; `.yml` and `.yaml` share a splitter; every other extension falls back to the 400/50 default |
| `Chunking.CreateDocuments` | src/AspireRagDemo.AppHost/Jupyter/Notebooks/code/pipeline.py:374-377 | `create_documents` raises iff the splitter does; otherwise there is one document per piece, in order, each holding the given metadata |
| `Chunking.RepoFieldsLookup` | src/AspireRagDemo.AppHost/Jupyter/Notebooks/code/ingestion_pipeline.py:105-112 | the repository metadata holds the URL, name, organisation and file count under each convention's own keys |
| `Chunking.RepoMetadataFields` | src/AspireRagDemo.AppHost/Jupyter/Notebooks/code/pipeline.py:330-337 | building the repository metadata raises IndexError iff the URL has no `/`; otherwise the name is the last `/`-segment, the organisation the one before it, and `total_files` the file count |
| `Chunking.CombineKeeps` | src/AspireRagDemo.AppHost/Jupyter/Notebooks/code/ingestion_pipeline.py:119-122 | nested: the repository sits under `"repository"` and the file keys are kept; flat: the repository keys win, and the file keys are kept when no key clashes |
| `Chunking.ExtOfExtracted` | src/AspireRagDemo.AppHost/Jupyter/Notebooks/code/pipeline.py:342 | the extension the chunker reads back from either extractor's metadata is the file's lower-cased extension |
| `Chunking.ResplitSections` | src/AspireRagDemo.AppHost/Jupyter/Notebooks/code/pipeline.py:355-368 | the long-section loop re-cuts each header section by size, in order, with the section's metadata overlaid by the combined metadata, and stops at a section whose split raises |
| `Chunking.OverlaySections` | src/AspireRagDemo.AppHost/Jupyter/Notebooks/code/pipeline.py:370-372 | the short-section loop keeps every section's text and overlays the combined metadata on its own |
| `Chunking.ProcessFile` | src/AspireRagDemo.AppHost/Jupyter/Notebooks/code/pipeline.py:351-382 | one file's chunks: for Markdown the header sections, re-cut when any exceeds 600 characters; otherwise one split with the table's splitter; nothing when splitting raises |
| `Chunking.ChunkFiles` | src/AspireRagDemo.AppHost/Jupyter/Notebooks/code/pipeline.py:340-382 | the loop over the files concatenates each file's chunks, in file order, under that file's combined metadata |
| `Chunking.AdvancedRepositoryChunking` | src/AspireRagDemo.AppHost/Jupyter/Notebooks/code/pipeline.py:311-387 | the notebook chunker equals the specification with the notebook table, nested metadata and the notebook extractor |
| `Chunking.ChunkContent` | src/AspireRagDemo.AppHost/Jupyter/Notebooks/code/ingestion_pipeline.py:86-158 | the ingestion chunker equals the specification with the ingestion table, flat metadata and the base-field extractor |
| `Chunking.ChunkedContent` | src/AspireRagDemo.AppHost/Jupyter/Notebooks/code/ingestion_pipeline.py:100-112 | a dump without files gives no chunks, whatever the URL; otherwise the chunker raises iff the URL has no `/` |
| `Chunking.ResplitStopsAtFailure` | src/AspireRagDemo.AppHost/Jupyter/Notebooks/code/pipeline.py:360-368 | when a section's re-split raises, the file keeps the chunks of the sections before it and gets nothing from the later sections |
| `Chunking.ResplitCarries` | src/AspireRagDemo.AppHost/Jupyter/Notebooks/code/pipeline.py:361-366 | every re-cut chunk's metadata is some section's header metadata overlaid by the combined metadata |
| `Chunking.ResplitEverySection` | src/AspireRagDemo.AppHost/Jupyter/Notebooks/code/ingestion_pipeline.py:127-141 | when no split raises, every section goes through the 600/50 splitter, short ones included, and the chunk texts are all sections' pieces in section order |
| `Chunking.MarkdownSections` | src/AspireRagDemo.AppHost/Jupyter/Notebooks/code/ingestion_pipeline.py:142-145 | Markdown with no section longer than 600 characters keeps one chunk per section, in order, each with its header metadata overlaid by the combined metadata |
| `Chunking.FileChunksCarry` | src/AspireRagDemo.AppHost/Jupyter/Notebooks/code/ingestion_pipeline.py:125-152 | every chunk of a file carries the combined metadata; outside Markdown its metadata is exactly the combined metadata |
| `Chunking.FailingFileSkipped` | src/AspireRagDemo.AppHost/Jupyter/Notebooks/code/ingestion_pipeline.py:153-155 | a file whose chunking raises adds nothing, and the files before and after it are chunked as if it were absent |
| `Chunking.ChunksCarryFileMetadata` | src/AspireRagDemo.AppHost/Jupyter/Notebooks/code/pipeline.py:341-382 | every chunk of the repository carries the combined metadata of the file it came from |
| `Chunking.NoRepositoryKey` | src/AspireRagDemo.AppHost/Jupyter/Notebooks/code/pipeline.py:201-211 | the notebook file metadata has no `"repository"` key for the nested entry to overwrite |
| `Chunking.BaseKeysApart` | src/AspireRagDemo.AppHost/Jupyter/Notebooks/code/ingestion_pipeline.py:105-122 | the eight base keys and the flat `repository_*` keys never clash, so the overlay loses no file field |
| `Chunking.PipelineChunkMetadata` | src/AspireRagDemo.AppHost/Jupyter/Notebooks/code/pipeline.py:330-349 | every notebook chunk holds, under `"repository"`, the repository metadata built from the URL with `total_files` = the number of parsed files, and all the metadata of some parsed file |
| `Chunking.IngestionChunkMetadata` | src/AspireRagDemo.AppHost/Jupyter/Notebooks/code/ingestion_pipeline.py:105-122 | every ingestion chunk holds all the flat repository keys, with `repository_total_files` = the number of parsed files, and the eight base fields of some parsed file |
| `ConfigHelper.FirstWith` | src/AspireRagDemo.AppHost/Jupyter/Notebooks/code/config_helper.py:26 | the index found is the first part with the prefix, and there is none iff no part has it |
| `ConfigHelper.SecondPiece` | src/AspireRagDemo.AppHost/Jupyter/Notebooks/code/config_helper.py:26 | for a part `key=…`, `split('=')[1]` is the text after `key=` up to the next `=` |
| `ConfigHelper.PartValue` | src/AspireRagDemo.AppHost/Jupyter/Notebooks/code/config_helper.py:26-27 | a value is the text between the first and second `=` of its part: it holds no `=`, so a value containing `=` is truncated |
| `ConfigHelper.Lookup` | src/AspireRagDemo.AppHost/Jupyter/Notebooks/code/config_helper.py:26-27 | the lookup raises StopIteration iff no part starts with `key=`; otherwise its value comes from the first such part |
| `ConfigHelper.ParseOllamaConnection` | src/AspireRagDemo.AppHost/Jupyter/Notebooks/code/config_helper.py:24-28 | parsing succeeds iff both an `Endpoint=` and a `Model=` part exist, and yields their first-match values; otherwise it raises StopIteration |
| `ConfigHelper.EitherOrder` | src/AspireRagDemo.AppHost/Jupyter/Notebooks/code/config_helper.py:25-27 | `Endpoint=` and `Model=` are found whichever comes first |
| `ConfigHelper.CollectionName` | src/AspireRagDemo.AppHost/Jupyter/Notebooks/code/config_helper.py:18-21 | in eval mode the collection name is `eval-` followed by the variable (or `None` when unset); otherwise it is the variable unchanged |
| `ConfigHelper.ParseQdrantConnection` | src/AspireRagDemo.AppHost/Jupyter/Notebooks/code/config_helper.py:37-40 | an unset variable raises AttributeError; otherwise the URL and key are the first-match `Endpoint=` and `Key=` values, and a missing one raises |
| `ConfigHelper.ParseEnvConnection` | src/AspireRagDemo.AppHost/Jupyter/Notebooks/code/config_helper.py:31-35 | an unset connection variable raises AttributeError; otherwise it is parsed as an Ollama connection |
| `ConfigHelper.NewConfigHelper` | src/AspireRagDemo.AppHost/Jupyter/Notebooks/code/config_helper.py:17-54 | construction succeeds iff all three connection strings parse; otherwise the error is that of the first failure in the order chat, embedding, Qdrant; the configs hold the parsed values and the collection name |
| `ChatConfiguration.GetModelProvider` | src/AspireRagDemo.AppHost/ChatConfiguration.cs:19-32 | null gives Ollama; OllamaHost iff the URI contains `host.` or `localhost`; otherwise HuggingFace iff it contains `hugging`, else OpenAI iff it contains `openai`, else Ollama; all ignoring case |
| `ChatConfiguration.ProviderIgnoresCase` | src/AspireRagDemo.AppHost/ChatConfiguration.cs:24-31 | upper- or lower-casing a URI does not change its provider |
| `ChatConfiguration.EmptyUriIsOllama` | src/AspireRagDemo.AppHost/ChatConfiguration.cs:30-31 | the empty URI is Ollama |
| `ChatConfiguration.Filter` | src/AspireRagDemo.AppHost/ChatConfiguration.cs:38-39 | the filter never lengthens and keeps only ASCII letters and `-` |
| `ChatConfiguration.StripSpecialCharacters` | src/AspireRagDemo.AppHost/ChatConfiguration.cs:33-40 | null stays null; otherwise the result is no longer than the input and holds only ASCII letters and `-` |
| `ChatConfiguration.FilterAppend` | src/AspireRagDemo.AppHost/ChatConfiguration.cs:38-39 | filtering two texts one after the other is filtering their concatenation: the order of the kept characters is preserved |
| `ChatConfiguration.FilterKeepsAll` | src/AspireRagDemo.AppHost/ChatConfiguration.cs:38-39 | a text of letters and `-` only is unchanged |
| `ChatConfiguration.FilterDropsAll` | src/AspireRagDemo.AppHost/ChatConfiguration.cs:38-39 | a text with no letter and no `-` becomes empty |
| `ChatConfiguration.FilterIdempotent` | src/AspireRagDemo.AppHost/ChatConfiguration.cs:38-39 | stripping twice is stripping once |
| `ChatConfiguration.NewConfiguration` | src/AspireRagDemo.AppHost/ChatConfiguration.cs:5-17 | the model names default to `phi3.5` and `mxbai-embed-large` and the host URIs to `""`, each taken from its environment variable when set; each provider is classified from its host URI; the connection name holds only kept characters and is no longer than the two names together |
| `ChatConfiguration.ConnectionNameIsFiltered` | src/AspireRagDemo.AppHost/ChatConfiguration.cs:15-16 | the connection name is the stripped chat model name followed by the stripped embedding model name |
| `ChatConfiguration.DefaultConfiguration` | src/AspireRagDemo.AppHost/ChatConfiguration.cs:7-16 | with no environment variables both providers are Ollama and the connection name is `phimxbai-embed-large` |
| `Int64Text.TryParseInt64` | src/AspireRagDemo.API/Models/FileMetadataToQdrantConverter.cs:51 | a successful parse lies in the signed 64-bit range |
| `Int64Text.ToDecimal` | src/AspireRagDemo.API/Models/FileMetadataToQdrantConverter.cs:104 | `long.ToString()` begins with `-` exactly for a negative number; the rest is decimal digits with no leading zero |
| `Int64Text.ParseToDecimal` | src/AspireRagDemo.API/Models/FileMetadataToQdrantConverter.cs:101-106 | parsing the decimal text of any 64-bit integer gives that integer back |
| `Int64Text.ToDecimalIsCanonical` | src/AspireRagDemo.API/Models/FileMetadataToQdrantConverter.cs:104 | the decimal text of every 64-bit integer is canonical: it parses, and printing the parsed value gives the same text back |
| `QdrantConverter.MapField.constructor` | src/AspireRagDemo.API/Models/FileMetadataToQdrantConverter.cs:12 | a new map is empty |
| `QdrantConverter.MapField.Set` | src/AspireRagDemo.API/Models/FileMetadataToQdrantConverter.cs:43 | assigning a key replaces its entry and leaves the others |
| `QdrantConverter.AddStringField` | src/AspireRagDemo.API/Models/FileMetadataToQdrantConverter.cs:39-45 | a string key is written iff the wrapper and its value are non-null; otherwise the map is unchanged |
| `QdrantConverter.AddIntegerField` | src/AspireRagDemo.API/Models/FileMetadataToQdrantConverter.cs:47-56 | an integer key is written only when its text parses as a 64-bit integer, and then holds the parsed value |
| `QdrantConverter.AddBooleanField` | src/AspireRagDemo.API/Models/FileMetadataToQdrantConverter.cs:58-64 | a bool key is written iff the nullable bool has a value |
| `QdrantConverter.AddStructField` | src/AspireRagDemo.API/Models/FileMetadataToQdrantConverter.cs:66-72 | a present struct field is written as an empty struct, so its contents are discarded |
| `QdrantConverter.ToQdrantFields` | src/AspireRagDemo.API/Models/FileMetadataToQdrantConverter.cs:10-37 | the fourteen helper calls, applied in place to a fresh map, leave exactly the payload specification |
| `QdrantConverter.PayloadKeysListed` | src/AspireRagDemo.API/Models/FileMetadataToQdrantConverter.cs:10-37 | only the fourteen listed keys can appear in the payload |
| `QdrantConverter.PayloadFields` | src/AspireRagDemo.API/Models/FileMetadataToQdrantConverter.cs:14-34 | each of the fourteen keys is present iff its helper writes it, and then holds the helper's value |
| `QdrantConverter.GetStringValue` | src/AspireRagDemo.API/Models/FileMetadataToQdrantConverter.cs:94-99 | the getter is null iff the key is missing or holds another kind; otherwise it wraps the stored string |
| `QdrantConverter.GetIntegerValue` | src/AspireRagDemo.API/Models/FileMetadataToQdrantConverter.cs:101-106 | the getter is null iff the key is missing or holds another kind; otherwise it wraps the decimal text of the stored integer |
| `QdrantConverter.GetBoolValue` | src/AspireRagDemo.API/Models/FileMetadataToQdrantConverter.cs:108-113 | the getter is null iff the key is missing or holds another kind; otherwise it wraps the stored bool |
| `QdrantConverter.FromQdrantFields` | src/AspireRagDemo.API/Models/FileMetadataToQdrantConverter.cs:75-92 | the two repository struct fields always come back null |
| `QdrantConverter.RoundTrip` | src/AspireRagDemo.API/Models/FileMetadataToQdrantConverter.cs:10-92 | reading a payload back keeps every non-null string and bool field, and every integer field that parses, in canonical decimal form; null and unparseable fields and both struct fields come back null |
| `QdrantConverter.CanonicalIntegerKept` | src/AspireRagDemo.API/Models/FileMetadataToQdrantConverter.cs:47-56 | an integer field already in canonical decimal form survives the round trip unchanged |

## Left out

- **Splitter internals.** The LangChain splitters (`RecursiveCharacterTextSplitter`, `MarkdownHeaderTextSplitter`, the Python language splitter) are uninterpreted functions in the `Library` parameter. Each returns its pieces, or None when it raises. Only the orchestration around them is modelled. The strategy tables record each splitter's configuration as data.
- **Foreign parsers.** `ast.parse`, `ast.get_docstring`, `ast.unparse`, `yaml.safe_load` and `json.loads` are parameters. A parse failure is None; any other exception from them is not modelled. The syntax tree is an abstract datatype holding only the node kinds and attributes the extractor reads.
- **Path rules.** `os.path` is taken to be `posixpath`: `/` is the only separator. Backslashes, drive letters and UNC prefixes, which `ntpath` would treat specially on Windows, are ordinary characters in `PyPath.SplitExt`, `PyPath.Basename` and `PyPath.Dirname`.
- **I/O and clients.** These are left out:
  - reading and ingesting repositories (`process_repository`, `process_single_file`);
  - vector-store and embedding setup;
  - LLM and HTTP clients;
  - the UI;
  - telemetry spans, `print` and logger calls;
  - the import-time `OPENAI_API_KEY` write in config_helper.py.
- **Environment variables.** They are parameters, None when unset.
- **Regular expressions.** Each pattern is a hand-written matcher for that pattern's behaviour:
  - `\w` is ASCII letters, digits and `_` only;
  - `\s` is Python's whitespace set;
  - Unicode word characters are not modelled.
- **Case folding.** `.lower()` on extensions is ASCII case folding; non-ASCII folds are not modelled.
- ChatConfiguration.GetModelProvider: .NET `InvariantCultureIgnoreCase` is a linguistic comparison that also skips ignorable code points (a soft hyphen inside `local\u00ADhost` still matches `localhost`). The model compares with ASCII case folding only, so such texts can get a different provider.
- Int64Text.TryParseInt64 and Int64Text.ToDecimal: `long.TryParse` and `long.ToString()` use the current culture's sign strings. The model fixes them to `+` and `-`, as the invariant culture has them; other cultures' signs are not modelled.
- **Values.**
  - `doc_coverage` is an exact ratio of naturals, not a float.
  - An entity's `dependencies` are `list(set(...))` in the source, whose order depends on hashing, so they are a set here.
- **Header-split failure.** The markdown header split raising and a later section's re-split raising both end that file. The chunks of sections already re-cut stay in the output, as in the source: they were appended before the exception.
- **Document updates.** `split.metadata.update(...)` works in place on documents returned by the splitter. Here the updated documents are new values in a sequence, so aliasing between the header splits and the output is not modelled.
- **Repository metadata.** The chunker reads `file_type` from each record. With either extractor it is always present, and the model falls back to `""` if it were not. The empty `file_types` and `directory_structure` maps are kept as empty maps.
- **Exceptions.** Three exceptions reach the caller. They are the URL's IndexError, and StopIteration and AttributeError from the configuration helper. Any other exception the Python code might raise is not modelled.
- Int64Text.TryParseInt64: its contract states only that a successful parse is a 64-bit value. Which texts parse is given by its definition: leading and trailing whitespace, an optional sign, digits, and trailing NUL characters. ParseToDecimal is the property proved about it.
- **RagExtensions.cs** connection-string handling is not part of this model. Neither is any C# or Python file outside the six core files.
