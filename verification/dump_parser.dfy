/**
 * The repository dump parser shared by both pipelines (`split_by_files` in
 * pipeline.py and `__split_by_files` in ingestion_pipeline.py, which are the same
 * loop): the dump is cut on a fixed delimiter, each part is trimmed, and a
 * line-oriented state machine turns the parts into per-file records.
 */
module DumpParser {
  import opened PyStr
  import opened Wrappers
  import opened SeqFacts

  /** The delimiter the dump is cut on: 48 '=' characters. */
  function Delimiter(): (d: string)
    ensures |d| == 48 && forall j :: 0 <= j < |d| ==> d[j] == '='
  {
    seq(48, i => '=')
  }
  /** The prefix of a line that opens a file. */
  const Header: string := "File: "

  datatype RawFile = RawFile(path: string, content: string)

  /** One element of the returned list: path, content and whatever metadata the pipeline attaches. */
  datatype FileRecord<M> = FileRecord(path: string, content: string, metadata: M)

  /**
   * The loop's variables between two parts. Python's `current_file` starts as
   * None and is only ever tested for truthiness, so None is modelled by "".
   */
  datatype State = State(currentFile: string, currentContent: seq<string>, files: seq<RawFile>)

  const Init: State := State([], [], [])

  /** The open file, if any, appended to the finished ones (the "save it" branch and the final flush). */
  function Flush(st: State): seq<RawFile> {
    if st.currentFile != [] then st.files + [RawFile(st.currentFile, Join(st.currentContent, "\n"))]
    else st.files
  }

  /** The path a header line names: every "File: " removed, then trimmed. */
  function PathOf(line: string): string {
    Strip(RemoveAll(line, Header))
  }

  /** One iteration of the loop on one part of the dump. */
  function Step(st: State, part: string): State {
    var p := Strip(part);
    if p == [] then st
    else
      var lines := Split(p, "\n");
      if StartsWith(lines[0], Header) then State(PathOf(lines[0]), lines[1..], Flush(st))
      else if st.currentFile != [] then st.(currentContent := st.currentContent + lines)
      else st
  }

  lemma StepBlank(st: State, raw: string)
    requires Strip(raw) == []
    ensures Step(st, raw) == st
  {
  }

  lemma StepHeader(st: State, raw: string, lines: seq<string>)
    requires Strip(raw) != [] && lines == Split(Strip(raw), "\n") && StartsWith(lines[0], Header)
    ensures Step(st, raw) == State(PathOf(lines[0]), lines[1..], Flush(st))
  {
  }

  lemma StepBody(st: State, raw: string, lines: seq<string>)
    requires Strip(raw) != [] && lines == Split(Strip(raw), "\n") && !StartsWith(lines[0], Header)
    ensures Step(st, raw) == if st.currentFile != [] then st.(currentContent := st.currentContent + lines) else st
  {
  }

  function Run(st: State, parts: seq<string>): State
    decreases |parts|
  {
    if parts == [] then st else Run(Step(st, parts[0]), parts[1..])
  }

  lemma {:induction false} RunSnoc(st: State, parts: seq<string>, part: string)
    ensures Run(st, parts + [part]) == Step(Run(st, parts), part)
    decreases |parts|
  {
    if parts == [] {
      assert parts + [part] == [part];
    } else {
      assert (parts + [part])[1..] == parts[1..] + [part];
      RunSnoc(Step(st, parts[0]), parts[1..], part);
    }
  }

  /** The state after the first `n` parts, folded from the front as the loop does. */
  function RunUpTo(parts: seq<string>, n: nat): State
    requires n <= |parts|
  {
    if n == 0 then Init else Step(RunUpTo(parts, n - 1), parts[n - 1])
  }

  lemma RunUpToNext(parts: seq<string>, i: nat)
    requires i < |parts|
    ensures RunUpTo(parts, i + 1) == Step(RunUpTo(parts, i), parts[i])
  {
  }

  lemma {:induction false} RunUpToIsRun(parts: seq<string>, n: nat)
    requires n <= |parts|
    ensures RunUpTo(parts, n) == Run(Init, parts[..n])
  {
    if n == 0 {
      assert parts[..0] == [];
    } else {
      RunUpToIsRun(parts, n - 1);
      TakeSnoc(parts, n);
      RunSnoc(Init, parts[..n - 1], parts[n - 1]);
    }
  }

  /** The open file's path is trimmed, and every finished file has a non-empty trimmed path. */
  predicate PathsTrimmed(st: State) {
    Stripped(st.currentFile) && forall f :: f in st.files ==> f.path != [] && Stripped(f.path)
  }

  lemma StepKeepsPathsTrimmed(st: State, part: string)
    requires PathsTrimmed(st)
    ensures PathsTrimmed(Step(st, part))
  {
  }

  lemma {:induction false} RunKeepsPathsTrimmed(st: State, parts: seq<string>)
    requires PathsTrimmed(st)
    ensures PathsTrimmed(Run(st, parts))
    decreases |parts|
  {
    if parts != [] {
      StepKeepsPathsTrimmed(st, parts[0]);
      RunKeepsPathsTrimmed(Step(st, parts[0]), parts[1..]);
    }
  }

  /** The files the parser returns, without their metadata: each has a non-empty, trimmed path. */
  function ParseDump(content: string): (files: seq<RawFile>)
    ensures forall f :: f in files ==> f.path != [] && Stripped(f.path)
  {
    if content == [] then []
    else
      var parts := Split(content, Delimiter());
      RunKeepsPathsTrimmed(Init, parts);
      Flush(Run(Init, parts))
  }

  /** The record the loop saves for a file, with the metadata `extract` computes from its path and content. */
  function Record<M>(f: RawFile, extract: (string, string) -> M): FileRecord<M> {
    FileRecord(f.path, f.content, extract(f.path, f.content))
  }

  function Attach<M>(raw: seq<RawFile>, extract: (string, string) -> M): (r: seq<FileRecord<M>>)
    ensures |r| == |raw|
  {
    seq(|raw|, i requires 0 <= i < |raw| => Record(raw[i], extract))
  }

  /**
   * `split_by_files`: the loop over the delimiter-separated parts, with the
   * pipeline's metadata extractor called for each file when it is saved.
   */
  method SplitByFiles<M>(content: string, extract: (string, string) -> M)
    returns (files: seq<FileRecord<M>>)
    ensures content == [] ==> files == []
    ensures files == Attach(ParseDump(content), extract)
  {
    if content == [] {
      return [];
    }
    var fileParts := Split(content, Delimiter());
    files := [];
    var currentFile: string := [];
    var currentContent: seq<string> := [];
    ghost var st := Init;
    var i := 0;
    while i < |fileParts|
      invariant 0 <= i <= |fileParts|
      invariant st == RunUpTo(fileParts, i)
      invariant currentFile == st.currentFile && currentContent == st.currentContent
      invariant files == Attach(st.files, extract)
    {
      ghost var next := Step(st, fileParts[i]);
      assert RunUpTo(fileParts, i + 1) == next by {
        RunUpToNext(fileParts, i);
      }
      var part := Strip(fileParts[i]);
      if part != [] {
        var lines := Split(part, "\n");
        if StartsWith(lines[0], Header) {
          StepHeader(st, fileParts[i], lines);
          if currentFile != [] {
            var joined := Join(currentContent, "\n");
            AttachSnoc(st.files, RawFile(currentFile, joined), extract);
            files := files + [FileRecord(currentFile, joined, extract(currentFile, joined))];
          }
          currentFile := PathOf(lines[0]);
          currentContent := lines[1..];
        } else {
          StepBody(st, fileParts[i], lines);
          if currentFile != [] {
            currentContent := currentContent + lines;
          }
        }
      } else {
        StepBlank(st, fileParts[i]);
      }
      st := next;
      i := i + 1;
    }
    RunUpToIsRun(fileParts, i);
    TakeAll(fileParts);
    if currentFile != [] {
      var joined := Join(currentContent, "\n");
      AttachSnoc(st.files, RawFile(currentFile, joined), extract);
      files := files + [FileRecord(currentFile, joined, extract(currentFile, joined))];
    }
  }

  lemma AttachSnoc<M>(raw: seq<RawFile>, f: RawFile, extract: (string, string) -> M)
    ensures Attach(raw + [f], extract) == Attach(raw, extract) + [Record(f, extract)]
  {
  }

  // ---------------------------------------------------------------------------
  // One record per header, in dump order

  /** The path a part opens a file with, when its first line is a header. */
  function HeaderPath(part: string): Option<string> {
    var p := Strip(part);
    if p != [] && StartsWith(Split(p, "\n")[0], Header) then Some(PathOf(Split(p, "\n")[0])) else None
  }

  /** The non-empty header paths of the parts, in order. */
  function OpenedPaths(parts: seq<string>): seq<string>
    decreases |parts|
  {
    if parts == [] then [] else NewPath(parts[0]) + OpenedPaths(parts[1..])
  }

  function Paths(files: seq<RawFile>): (r: seq<string>)
    ensures |r| == |files| && forall i :: 0 <= i < |files| ==> r[i] == files[i].path
  {
    seq(|files|, i requires 0 <= i < |files| => files[i].path)
  }

  /** What one part adds to the paths of the files flushed so far. */
  function NewPath(part: string): seq<string> {
    var here := HeaderPath(part);
    if here.Some? && here.value != [] then [here.value] else []
  }

  lemma PathsSnoc(files: seq<RawFile>, f: RawFile)
    ensures Paths(files + [f]) == Paths(files) + [f.path]
  {
  }

  /** Both states have the same open file and the same finished files. */
  lemma FlushPaths(st: State, st': State)
    requires st.currentFile == st'.currentFile && st.files == st'.files
    ensures Paths(Flush(st)) == Paths(Flush(st'))
  {
    if st.currentFile != [] {
      PathsSnoc(st.files, RawFile(st.currentFile, Join(st.currentContent, "\n")));
      PathsSnoc(st.files, RawFile(st.currentFile, Join(st'.currentContent, "\n")));
    }
  }

  lemma StepPaths(st: State, part: string)
    ensures Paths(Flush(Step(st, part))) == Paths(Flush(st)) + NewPath(part)
  {
    var next := Step(st, part);
    var p := Strip(part);
    if p != [] && StartsWith(Split(p, "\n")[0], Header) {
      assert next.files == Flush(st) && next.currentFile == PathOf(Split(p, "\n")[0]);
      assert NewPath(part) == (if next.currentFile != [] then [next.currentFile] else []);
      if next.currentFile != [] {
        PathsSnoc(Flush(st), RawFile(next.currentFile, Join(next.currentContent, "\n")));
      }
    } else {
      assert next.currentFile == st.currentFile && next.files == st.files;
      FlushPaths(next, st);
      assert NewPath(part) == [];
    }
  }

  lemma {:induction false} RunPaths(st: State, parts: seq<string>)
    ensures Paths(Flush(Run(st, parts))) == Paths(Flush(st)) + OpenedPaths(parts)
    decreases |parts|
  {
    if parts == [] {
      assert Paths(Flush(st)) + [] == Paths(Flush(st));
    } else {
      var next := Step(st, parts[0]);
      var a, b, c := Paths(Flush(st)), NewPath(parts[0]), OpenedPaths(parts[1..]);
      assert Run(st, parts) == Run(next, parts[1..]);
      RunPaths(next, parts[1..]);
      StepPaths(st, parts[0]);
      assert OpenedPaths(parts) == b + c;
      AppendAssoc(a, b, c);
    }
  }

  /**
   * Files come out in dump order, one for every header part whose path is not
   * empty, and the last open file is always emitted.
   */
  lemma ParsedPathsAreHeaderPaths(content: string)
    requires content != []
    ensures Paths(ParseDump(content)) == OpenedPaths(Split(content, Delimiter()))
  {
    RunPaths(Init, Split(content, Delimiter()));
    assert Paths(Flush(Init)) == [];
  }

  // ---------------------------------------------------------------------------
  // Round trip with the layout the ingest tool writes

  /**
   * The dump of a list of files: for each one a delimiter line, a header line,
   * a second delimiter line, then the content and a blank line.
   */
  function Dump(files: seq<RawFile>): string
    decreases |files|
  {
    if files == [] then []
    else Delimiter() + (HeaderPart(files[0]) + (Delimiter() + (BodyPart(files[0]) + Dump(files[1..]))))
  }

  function HeaderPart(f: RawFile): string { "\n" + Header + f.path + "\n" }

  function BodyPart(f: RawFile): string { "\n" + f.content + "\n\n" }

  /** A file the parser gets back unchanged. */
  predicate WellFormed(f: RawFile) {
    Parseable(f) && DelimiterFree(f)
  }

  /**
   * What the line-oriented state machine needs to read a file back: a trimmed
   * one-line path that does not mention the header prefix, and trimmed content
   * that does not itself start like a header.
   */
  predicate Parseable(f: RawFile) {
    && f.path != [] && Stripped(f.path) && '\n' !in f.path && !Contains(f.path, Header)
    && Stripped(f.content) && !StartsWith(f.content, Header)
  }

  /** What cutting on the delimiter needs to keep a file's two parts whole. */
  predicate DelimiterFree(f: RawFile) {
    !Contains(f.path, Delimiter()) && !Contains(f.content, Delimiter())
  }

  /** The text between the delimiters of a dump: header part, body part, and so on. */
  function Pieces(files: seq<RawFile>): (ps: seq<string>)
    decreases |files|
    ensures |ps| == 2 * |files|
  {
    if files == [] then [] else [HeaderPart(files[0])] + ([BodyPart(files[0])] + Pieces(files[1..]))
  }

  lemma {:induction false} DumpIsJoin(files: seq<RawFile>)
    ensures Dump(files) == Join([[]] + Pieces(files), Delimiter())
    decreases |files|
  {
    if files != [] {
      var f, d := files[0], Delimiter();
      var h, b, rest := HeaderPart(f), BodyPart(f), Pieces(files[1..]);
      DumpIsJoin(files[1..]);
      JoinAfterEmpty(rest, d);
      JoinAfterEmpty(Pieces(files), d);
      JoinCons(h, [b] + rest, d);
      if rest == [] {
        assert [b] + rest == [b];
        AppendNil(b);
      } else {
        JoinCons(b, rest, d);
      }
    }
  }

  /** Text between two characters other than '=' cannot create a delimiter occurrence. */
  lemma NoDelimiterAround(u: string, v: string, w: string)
    requires '=' !in u && '=' !in w && w != []
    requires !Contains(v, Delimiter())
    ensures !Contains(u + v + w, Delimiter())
  {
    var s, d := u + v + w, Delimiter();
    forall i | 0 <= i <= |s| ensures !StartsWith(s[i..], d) {
      if |s[i..]| < |d| {
      } else if i < |u| {
        assert s[i..][0] == u[i];
      } else if i + |d| <= |u| + |v| {
        assert s[i..][..|d|] == v[i - |u|..][..|d|];
      } else if i <= |u| + |v| {
        assert s[i..][|u| + |v| - i] == w[0];
      } else {
        assert s[i..][0] == w[i - |u| - |v|];
      }
    }
  }

  /** A piece the delimiter cannot run into: it ends with a newline and holds no delimiter. */
  predicate SafePiece(a: string) {
    a != [] && a[|a| - 1] == '\n' && !Contains(a, Delimiter())
  }

  lemma PieceIsSafe(a: string, rest: string)
    requires SafePiece(a)
    ensures NoMatchBefore(a + (Delimiter() + rest), Delimiter(), |a|)
    ensures NoMatchBefore(a, Delimiter(), |a| + 1)
  {
    var s, d := a + (Delimiter() + rest), Delimiter();
    forall j | 0 <= j < |a| && j <= |s| ensures !StartsWith(s[j..], d) {
      if j + |d| <= |a| {
        assert s[j..][..|d|] == a[j..][..|d|];
      } else {
        assert s[j..][|a| - 1 - j] == a[|a| - 1];
      }
    }
  }

  /** Every piece of the list is safe. */
  predicate AllSafe(ps: seq<string>)
    decreases |ps|
  {
    ps == [] || (SafePiece(ps[0]) && AllSafe(ps[1..]))
  }

  lemma {:induction false} AllSafeAt(ps: seq<string>, k: nat)
    requires AllSafe(ps) && k < |ps|
    ensures SafePiece(ps[k])
    decreases k
  {
    if k > 0 {
      AllSafeAt(ps[1..], k - 1);
    }
  }

  /** Every file of the list is delimiter-free. */
  predicate AllDelimiterFree(files: seq<RawFile>)
    decreases |files|
  {
    files == [] || (DelimiterFree(files[0]) && AllDelimiterFree(files[1..]))
  }

  lemma {:induction false} PiecesAreSafe(files: seq<RawFile>)
    requires AllDelimiterFree(files)
    ensures AllSafe(Pieces(files))
    decreases |files|
  {
    if files != [] {
      var f := files[0];
      var h, b, rest := HeaderPart(f), BodyPart(f), Pieces(files[1..]);
      PiecesAreSafe(files[1..]);
      NoDelimiterAround("\n" + Header, f.path, "\n");
      NoDelimiterAround("\n", f.content, "\n\n");
      assert ([b] + rest)[1..] == rest;
      assert AllSafe([b] + rest);
      assert ([h] + ([b] + rest))[1..] == [b] + rest;
    }
  }

  /** Safe pieces after an empty first part can be told apart by the delimiter. */
  lemma SafeSeparable(ps: seq<string>)
    requires AllSafe(ps)
    ensures Separable([[]] + ps, Delimiter())
  {
    var qs, d := [[]] + ps, Delimiter();
    forall k | 0 <= k < |qs| - 1
      ensures NoMatchBefore(qs[k] + (d + Join(qs[k + 1..], d)), d, |qs[k]|)
    {
      if k > 0 {
        AllSafeAt(ps, k - 1);
        PieceIsSafe(qs[k], Join(qs[k + 1..], d));
      }
    }
    if |qs| > 1 {
      AllSafeAt(ps, |qs| - 2);
      PieceIsSafe(qs[|qs| - 1], []);
    }
  }

  lemma PiecesSeparable(files: seq<RawFile>)
    requires AllDelimiterFree(files)
    ensures Separable([[]] + Pieces(files), Delimiter())
  {
    PiecesAreSafe(files);
    SafeSeparable(Pieces(files));
  }

  /** Cutting the dump on the delimiter gives an empty first part and then the pieces. */
  lemma SplitDump(files: seq<RawFile>)
    requires AllDelimiterFree(files)
    ensures Split(Dump(files), Delimiter()) == [[]] + Pieces(files)
  {
    DumpIsJoin(files);
    PiecesSeparable(files);
    SplitJoin([[]] + Pieces(files), Delimiter());
  }

  /** Trimming whitespace around already-trimmed text gives that text. */
  lemma {:induction false} StripPadded(lead: string, t: string, trail: string)
    requires AllSpace(lead) && AllSpace(trail) && Stripped(t)
    ensures Strip(lead + t + trail) == t
    decreases |lead| + |trail|
  {
    var s := lead + t + trail;
    if t == [] {
      assert s == lead + trail;
      assert AllSpace(s);
    } else if lead != [] {
      assert s[0] == lead[0];
      assert s[1..] == lead[1..] + t + trail;
      StripPadded(lead[1..], t, trail);
    } else if trail != [] {
      assert s == t + trail;
      assert s[|s| - 1] == trail[|trail| - 1];
      assert s[..|s| - 1] == [] + t + trail[..|trail| - 1];
      StripPadded([], t, trail[..|trail| - 1]);
    } else {
      assert s == t;
    }
  }

  lemma {:induction false} FirstPieceIsPrefix(s: string, sep: string, cur: string)
    requires sep != []
    ensures StartsWith(cur + s, SplitFrom(s, sep, cur)[0])
    decreases |s|
  {
    if StartsWith(s, sep) {
    } else if s == [] {
    } else {
      FirstPieceIsPrefix(s[1..], sep, cur + [s[0]]);
      assert cur + [s[0]] + s[1..] == cur + s;
    }
  }

  lemma SplitWithoutNewline(s: string)
    requires '\n' !in s
    ensures Split(s, "\n") == [s]
  {
    forall j | 0 <= j < |s| + 1 && j <= |s| ensures !StartsWith(s[j..], "\n") {
      if j < |s| { assert s[j..][0] == s[j]; }
    }
    SplitFromLast(s, "\n", []);
    AppendNil(s);
  }

  /** The header line of a parseable file names exactly that file. */
  lemma PathOfHeaderLine(f: RawFile)
    requires Parseable(f)
    ensures PathOf(Header + f.path) == f.path
  {
    var line := Header + f.path;
    assert line[..|Header|] == Header;
    assert line[|Header|..] == f.path;
    RemoveAllAbsent(f.path, Header);
    StripKeepsStripped(f.path);
  }

  lemma HeaderLineIsOneLine(f: RawFile)
    requires Parseable(f)
    ensures Split(Header + f.path, "\n") == [Header + f.path]
  {
    var line := Header + f.path;
    forall k | 0 <= k < |line| ensures line[k] != '\n' {
      if k >= |Header| { assert line[k] == f.path[k - |Header|]; }
    }
    SplitWithoutNewline(line);
  }

  /** The header part of a parseable file closes the open file and opens this one. */
  lemma HeaderStep(st: State, f: RawFile)
    requires Parseable(f)
    ensures Step(st, HeaderPart(f)) == State(f.path, [], Flush(st))
  {
    var line := Header + f.path;
    assert Strip(HeaderPart(f)) == line by {
      AppendAssoc("\n", Header, f.path);
      StripPadded("\n", line, "\n");
    }
    HeaderLineIsOneLine(f);
    assert StartsWith(line, Header);
    StepHeader(st, HeaderPart(f), [line]);
    PathOfHeaderLine(f);
  }

  /** The content of a parseable file comes back from its lines. */
  lemma ContentLines(f: RawFile)
    requires Parseable(f) && f.content != []
    ensures !StartsWith(Split(f.content, "\n")[0], Header)
    ensures Join(Split(f.content, "\n"), "\n") == f.content
  {
    FirstPieceIsPrefix(f.content, "\n", []);
    AppendNil(f.content);
    var first := Split(f.content, "\n")[0];
    if |Header| <= |first| {
      assert f.content[..|Header|] == first[..|Header|];
    }
    JoinSplit(f.content, "\n");
  }

  /** The body part of a parseable file gives the file opened before it its content. */
  lemma BodyStep(path: string, files: seq<RawFile>, f: RawFile)
    requires Parseable(f) && path != []
    ensures Flush(Step(State(path, [], files), BodyPart(f))) == files + [RawFile(path, f.content)]
  {
    var st := State(path, [], files);
    assert Strip(BodyPart(f)) == f.content by {
      StripPadded("\n", f.content, "\n\n");
    }
    if f.content != [] {
      ContentLines(f);
      StepBody(st, BodyPart(f), Split(f.content, "\n"));
      AppendNil(Split(f.content, "\n"));
    }
  }

  lemma RunCons(st: State, part: string, rest: seq<string>)
    ensures Run(st, [part] + rest) == Run(Step(st, part), rest)
  {
    assert ([part] + rest)[1..] == rest;
  }

  /** Every file of the list is parseable. */
  predicate AllParseable(files: seq<RawFile>)
    decreases |files|
  {
    files == [] || (Parseable(files[0]) && AllParseable(files[1..]))
  }

  lemma {:induction false} WellFormedSplits(files: seq<RawFile>)
    requires forall k :: 0 <= k < |files| ==> WellFormed(files[k])
    ensures AllParseable(files) && AllDelimiterFree(files)
    decreases |files|
  {
    if files != [] {
      assert WellFormed(files[0]);
      WellFormedSplits(files[1..]);
    }
  }

  lemma {:induction false} RunPieces(st: State, files: seq<RawFile>)
    requires AllParseable(files)
    ensures Flush(Run(st, Pieces(files))) == Flush(st) + files
    decreases |files|
  {
    if files == [] {
      AppendNil(Flush(st));
    } else {
      var f := files[0];
      HeaderStep(st, f);
      var afterHeader := State(f.path, [], Flush(st));
      BodyStep(f.path, Flush(st), f);
      var next := Step(afterHeader, BodyPart(f));
      RunCons(st, HeaderPart(f), [BodyPart(f)] + Pieces(files[1..]));
      RunCons(afterHeader, BodyPart(f), Pieces(files[1..]));
      RunPieces(next, files[1..]);
      AppendAssoc(Flush(st), [f], files[1..]);
      Uncons(files);
    }
  }

  /**
   * Parsing a dump in the ingest tool's layout gives back its files, with their
   * paths and contents, in order; the empty dump parses to no files.
   */
  lemma ParseDumpRoundTrip(files: seq<RawFile>)
    requires forall k :: 0 <= k < |files| ==> WellFormed(files[k])
    ensures ParseDump(Dump(files)) == files
  {
    if files != [] {
      assert |Dump(files)| >= |Delimiter()|;
      WellFormedSplits(files);
      SplitDump(files);
      assert Step(Init, []) == Init;
      RunCons(Init, [], Pieces(files));
      RunPieces(Init, files);
      AppendNil(files);
    }
  }
}
