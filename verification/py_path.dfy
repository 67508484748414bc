/** The POSIX `os.path` helpers used on file paths taken from the dump. */
module PyPath {
  import opened PyStr

  /** `s.rfind(c)`: the last index holding `c`, or -1. */
  function RFind(s: string, c: char): (k: int)
    ensures -1 <= k < |s|
    ensures k >= 0 ==> s[k] == c
    ensures forall j :: k < j < |s| ==> s[j] != c
  {
    if s == [] then -1
    else if s[|s| - 1] == c then |s| - 1
    else RFind(s[..|s| - 1], c)
  }

  /** True when `p[from..to]` holds a character other than '.'. */
  predicate HasNonDot(p: string, from: int, to: int)
    requires 0 <= from <= to <= |p|
  {
    exists j :: from <= j < to && p[j] != '.'
  }

  /**
   * `os.path.splitext(p)[1]`: from the last '.' of the last path component to the
   * end, provided some character before that dot in the component is not a dot
   * (so ".bashrc" and "..." have no extension).
   */
  function SplitExt(p: string): (ext: string)
    ensures ext == [] || (ext[0] == '.' && '/' !in ext && '.' !in ext[1..])
    ensures |ext| <= |p| && ext == p[|p| - |ext|..]
  {
    var sepIndex := RFind(p, '/');
    var dotIndex := RFind(p, '.');
    if dotIndex > sepIndex && HasNonDot(p, sepIndex + 1, dotIndex) then p[dotIndex..] else []
  }

  /**
   * Which suffix `SplitExt` picks: a non-empty extension starts at a dot of the
   * last path component with a non-dot before it in that component (and holds
   * no further dot, so it is the last such dot); an empty one means no dot of
   * the last component has a non-dot before it.
   */
  lemma SplitExtIsLastDot(p: string)
    ensures var ext, sep := SplitExt(p), RFind(p, '/');
      && (ext != [] ==> sep < |p| - |ext| && HasNonDot(p, sep + 1, |p| - |ext|))
      && (ext == [] ==> forall j :: sep < j < |p| && p[j] == '.' ==> !HasNonDot(p, sep + 1, j))
  {
    var sepIndex := RFind(p, '/');
    var dotIndex := RFind(p, '.');
    if !(dotIndex > sepIndex && HasNonDot(p, sepIndex + 1, dotIndex)) {
      assert forall j :: sepIndex < j < |p| && p[j] == '.' ==> j <= dotIndex;
    }
  }

  /** `os.path.basename(p)`: everything after the last '/'. */
  function Basename(p: string): (b: string)
    ensures '/' !in b
    ensures |b| <= |p| && b == p[|p| - |b|..]
  {
    p[RFind(p, '/') + 1..]
  }

  /**
   * The base name is the whole slash-free tail: it is the whole path or is
   * preceded by a '/', so no longer slash-free suffix exists.
   */
  lemma BasenameFollowsLastSlash(p: string)
    ensures var b := Basename(p);
      (|b| == |p| || p[|p| - |b| - 1] == '/')
      && forall j :: 0 <= j < |p| - |b| ==> '/' in p[j..]
  {
    var b := Basename(p);
    var r := RFind(p, '/');
    forall j | 0 <= j < |p| - |b| ensures '/' in p[j..] {
      assert p[j..][r - j] == '/';
    }
  }

  /** `os.path.dirname(p)`: everything before the last '/', trailing slashes removed unless all slashes. */
  function Dirname(p: string): (d: string)
    ensures '/' !in p ==> d == []
    ensures |d| <= |p| && d == p[..|d|]
  {
    var head := p[..RFind(p, '/') + 1];
    if !AllSlashes(head) then RStripSlash(head) else head
  }

  /**
   * What `Dirname` keeps of the path up to its last '/': all of it when that
   * is only slashes, otherwise all but its trailing slashes, ending in a
   * non-slash.
   */
  lemma DirnameStripsSlashes(p: string)
    ensures var d, head := Dirname(p), p[..RFind(p, '/') + 1];
      |d| <= |head| && (forall j :: |d| <= j < |head| ==> head[j] == '/')
      && (AllSlashes(head) ==> d == head)
      && (!AllSlashes(head) ==> d != [] && d[|d| - 1] != '/')
  {
  }

  predicate AllSlashes(s: string) {
    forall j :: 0 <= j < |s| ==> s[j] == '/'
  }

  /**
   * A path is its directory, a run of slashes and its base name; the run is
   * non-empty when the path holds a '/' and the directory is not all slashes.
   */
  lemma DirnameBasename(p: string)
    ensures var d, b := Dirname(p), Basename(p);
      |d| + |b| <= |p| && p == d + p[|d|..|p| - |b|] + b && AllSlashes(p[|d|..|p| - |b|])
      && ('/' in p && !AllSlashes(d) ==> |d| + |b| < |p|)
  {
    DirnameStripsSlashes(p);
    var d, b := Dirname(p), Basename(p);
    var r := RFind(p, '/');
    assert |b| == |p| - r - 1;
    var gap := p[|d|..|p| - |b|];
    forall j | 0 <= j < |gap| ensures gap[j] == '/' {
      assert gap[j] == p[..r + 1][|d| + j];
    }
    assert p == p[..|d|] + gap + p[|p| - |b|..];
  }

  function RStripSlash(s: string): (r: string)
    ensures |r| <= |s| && r == s[..|r|]
    ensures r == [] || r[|r| - 1] != '/'
    ensures forall j :: |r| <= j < |s| ==> s[j] == '/'
    ensures !AllSlashes(s) ==> r != []
  {
    if s == [] || s[|s| - 1] != '/' then s else RStripSlash(s[..|s| - 1])
  }

  /**
   * The `file_type` value: the lower-cased extension, which is either empty or a
   * dot followed by dot-free, slash-free text with no upper-case ASCII letter.
   */
  lemma FileTypeShape(p: string)
    ensures var t := Lower(SplitExt(p));
      (t == [] || (t[0] == '.' && '/' !in t && '.' !in t[1..]))
      && forall i :: 0 <= i < |t| ==> !('A' <= t[i] <= 'Z')
  {
    var e := SplitExt(p);
    var t := Lower(e);
    if t != [] {
      assert t[0] == LowerChar(e[0]) == '.';
      forall i | 0 <= i < |t| ensures t[i] != '/' && (i > 0 ==> t[i] != '.') {
        assert t[i] == LowerChar(e[i]);
        assert e[i] != '/';
        if i > 0 { assert e[i] == e[1..][i - 1]; }
      }
    }
  }

  /** Splitting on '/' splits what precedes the last '/' and adds what follows it as the last piece. */
  lemma SplitAtLastSlash(s: string)
    requires '/' in s
    ensures 0 <= RFind(s, '/')
    ensures Split(s, "/") == Split(s[..RFind(s, '/')], "/") + [Basename(s)]
  {
    var r := RFind(s, '/');
    var head := s[..r];
    var tail := s[r + 1..];
    assert s == head + (['/'] + tail);
    assert '/' !in tail;
    SplitLastSeparator(head, '/', tail, []);
  }

  /** The last piece of `s.split('/')` is the base name of `s`; without a '/' it is the only piece. */
  lemma LastPiece(s: string)
    ensures var parts := Split(s, "/");
      && parts[|parts| - 1] == Basename(s)
      && ('/' !in s ==> parts == [s])
  {
    if '/' in s {
      SplitAtLastSlash(s);
    } else {
      SplitNoSeparator(s, '/');
      assert RFind(s, '/') == -1;
    }
  }

  /**
   * The last piece of `s.split('/')` is the base name of `s`; when a '/' is
   * present there are at least two pieces, and the one before the last is the
   * base name of what precedes the last '/'.
   */
  lemma SplitLastPieces(s: string)
    ensures var parts := Split(s, "/");
      && parts[|parts| - 1] == Basename(s)
      && ('/' in s <==> |parts| >= 2)
      && ('/' in s ==> parts[|parts| - 2] == Basename(s[..RFind(s, '/')]))
  {
    LastPiece(s);
    if '/' in s {
      SecondLastPiece(s);
    }
  }

  lemma SecondLastPiece(s: string)
    requires '/' in s
    ensures var parts := Split(s, "/");
      |parts| >= 2 && parts[|parts| - 2] == Basename(s[..RFind(s, '/')])
  {
    var head := s[..RFind(s, '/')];
    var hp := Split(head, "/");
    SplitAtLastSlash(s);
    LastPiece(head);
    var parts := hp + [Basename(s)];
    assert parts[|parts| - 2] == hp[|hp| - 1];
  }
}
