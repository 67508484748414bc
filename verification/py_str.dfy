/**
 * The Python `str` operations the ingestion code relies on: `strip`, `split` on a
 * fixed separator, `join`, `startswith`, `replace(x, "")`, `splitlines`, `lower`
 * and the length of the UTF-8 encoding.
 */
module PyStr {

  /** `str.isspace()` for one character (the Unicode White_Space set Python uses). */
  predicate IsSpace(c: char) {
    var n := c as int;
    n == 0x20 || 0x09 <= n <= 0x0D || 0x1C <= n <= 0x1F || n == 0x85 || n == 0xA0
    || n == 0x1680 || 0x2000 <= n <= 0x200A || n == 0x2028 || n == 0x2029
    || n == 0x202F || n == 0x205F || n == 0x3000
  }

  predicate AllSpace(s: string) {
    forall i :: 0 <= i < |s| ==> IsSpace(s[i])
  }

  /**
   * `s.strip()`: leading and trailing whitespace removed. The result is empty
   * exactly when `s` is all whitespace, and otherwise neither of its ends is
   * whitespace.
   */
  function Strip(s: string): (r: string)
    decreases |s|
    ensures |r| <= |s|
    ensures r == [] <==> AllSpace(s)
    ensures r != [] ==> !IsSpace(r[0]) && !IsSpace(r[|r| - 1])
  {
    if s == [] then []
    else if IsSpace(s[0]) then
      (assert forall i :: 1 <= i < |s| ==> s[i] == s[1..][i - 1]; Strip(s[1..]))
    else if IsSpace(s[|s| - 1]) then Strip(s[..|s| - 1])
    else s
  }

  /** A string that `strip` leaves alone: empty, or neither end is whitespace. */
  predicate Stripped(s: string) {
    s == [] || (!IsSpace(s[0]) && !IsSpace(s[|s| - 1]))
  }

  lemma StripKeepsStripped(s: string)
    requires Stripped(s)
    ensures Strip(s) == s
  {
  }

  /** `s.startswith(p)` */
  predicate StartsWith(s: string, p: string) {
    |p| <= |s| && s[..|p|] == p
  }

  /** `p in s` */
  predicate Contains(s: string, p: string) {
    exists i :: 0 <= i <= |s| && StartsWith(s[i..], p)
  }

  /** `sep.join(parts)` */
  function Join(parts: seq<string>, sep: string): (r: string)
    decreases |parts|
    ensures parts != [] ==> StartsWith(r, parts[0])
  {
    if parts == [] then []
    else if |parts| == 1 then parts[0]
    else parts[0] + (sep + Join(parts[1..], sep))
  }

  lemma JoinCons(x: string, parts: seq<string>, sep: string)
    requires parts != []
    ensures Join([x] + parts, sep) == x + (sep + Join(parts, sep))
  {
    assert ([x] + parts)[1..] == parts;
  }

  /** Joining after an empty first part puts a separator in front of every part. */
  lemma JoinAfterEmpty(parts: seq<string>, sep: string)
    ensures Join([[]] + parts, sep) == if parts == [] then [] else sep + Join(parts, sep)
  {
    if parts != [] {
      JoinCons([], parts, sep);
      assert [] + (sep + Join(parts, sep)) == sep + Join(parts, sep);
    }
  }

  /**
   * `s.split(sep)` for a non-empty separator, with `cur` the piece being
   * accumulated: occurrences are found left to right and never overlap.
   */
  function SplitFrom(s: string, sep: string, cur: string): (parts: seq<string>)
    requires sep != []
    decreases |s|
    ensures |parts| >= 1
  {
    if StartsWith(s, sep) then [cur] + SplitFrom(s[|sep|..], sep, [])
    else if s == [] then [cur]
    else SplitFrom(s[1..], sep, cur + [s[0]])
  }

  function Split(s: string, sep: string): (parts: seq<string>)
    requires sep != []
    ensures |parts| >= 1
  {
    SplitFrom(s, sep, [])
  }

  lemma {:induction false} JoinSplitFrom(s: string, sep: string, cur: string)
    requires sep != []
    ensures Join(SplitFrom(s, sep, cur), sep) == cur + s
    decreases |s|
  {
    if StartsWith(s, sep) {
      JoinSplitFrom(s[|sep|..], sep, []);
      assert s == sep + s[|sep|..];
    } else if s == [] {
    } else {
      JoinSplitFrom(s[1..], sep, cur + [s[0]]);
      assert cur + [s[0]] + s[1..] == cur + s;
    }
  }

  /** Splitting then joining with the same separator gives the input back. */
  lemma JoinSplit(s: string, sep: string)
    requires sep != []
    ensures Join(Split(s, sep), sep) == s
  {
    JoinSplitFrom(s, sep, []);
  }

  /** No occurrence of `sep` starts inside `cur` and runs on into `s`. */
  predicate NoMatchInside(cur: string, s: string, sep: string) {
    forall i :: 0 <= i < |cur| ==> !StartsWith(cur[i..] + s, sep)
  }

  lemma NoMatchInsideFree(cur: string, s: string, sep: string)
    requires sep != [] && NoMatchInside(cur, s, sep)
    ensures !Contains(cur, sep)
  {
    forall i | 0 <= i <= |cur| ensures !StartsWith(cur[i..], sep) {
      if i < |cur| {
        assert !StartsWith(cur[i..] + s, sep);
        assert |sep| <= |cur[i..]| ==> (cur[i..] + s)[..|sep|] == cur[i..][..|sep|];
      }
    }
  }

  lemma {:induction false} SplitFromPiecesFree(s: string, sep: string, cur: string)
    requires sep != [] && NoMatchInside(cur, s, sep)
    ensures forall k :: 0 <= k < |SplitFrom(s, sep, cur)| ==> !Contains(SplitFrom(s, sep, cur)[k], sep)
    decreases |s|
  {
    if StartsWith(s, sep) {
      NoMatchInsideFree(cur, s, sep);
      SplitFromPiecesFree(s[|sep|..], sep, []);
    } else if s == [] {
      NoMatchInsideFree(cur, s, sep);
    } else {
      var next := cur + [s[0]];
      forall i | 0 <= i < |next| ensures !StartsWith(next[i..] + s[1..], sep) {
        if i < |cur| {
          assert next[i..] + s[1..] == cur[i..] + s;
        } else {
          assert next[i..] + s[1..] == s;
        }
      }
      SplitFromPiecesFree(s[1..], sep, next);
    }
  }

  /** No piece of `s.split(sep)` contains `sep`. */
  lemma SplitPiecesFree(s: string, sep: string)
    requires sep != []
    ensures forall k :: 0 <= k < |Split(s, sep)| ==> !Contains(Split(s, sep)[k], sep)
  {
    SplitFromPiecesFree(s, sep, []);
  }

  /** No occurrence of `sep` starts before position `n` of `s`. */
  predicate NoMatchBefore(s: string, sep: string, n: nat) {
    forall j :: 0 <= j < n && j <= |s| ==> !StartsWith(s[j..], sep)
  }

  lemma {:induction false} SplitFromPiece(a: string, sep: string, rest: string, cur: string)
    requires sep != []
    requires NoMatchBefore(a + (sep + rest), sep, |a|)
    ensures SplitFrom(a + (sep + rest), sep, cur) == [cur + a] + SplitFrom(rest, sep, [])
    decreases |a|
  {
    var s := a + (sep + rest);
    if a == [] {
      assert s == sep + rest;
      assert s[..|sep|] == sep;
      assert s[|sep|..] == rest;
      assert cur + a == cur;
    } else {
      assert !StartsWith(s[0..], sep);
      assert s[0..] == s;
      assert s[1..] == a[1..] + (sep + rest);
      forall j | 0 <= j < |a[1..]| && j <= |s[1..]|
        ensures !StartsWith(s[1..][j..], sep)
      {
        assert s[1..][j..] == s[j + 1..];
      }
      SplitFromPiece(a[1..], sep, rest, cur + [a[0]]);
      assert cur + [a[0]] + a[1..] == cur + a;
    }
  }

  lemma {:induction false} SplitFromLast(a: string, sep: string, cur: string)
    requires sep != []
    requires NoMatchBefore(a, sep, |a| + 1)
    ensures SplitFrom(a, sep, cur) == [cur + a]
    decreases |a|
  {
    assert a[0..] == a;
    assert !StartsWith(a, sep);
    if a != [] {
      forall j | 0 <= j < |a[1..]| + 1 && j <= |a[1..]|
        ensures !StartsWith(a[1..][j..], sep)
      {
        assert a[1..][j..] == a[j + 1..];
      }
      SplitFromLast(a[1..], sep, cur + [a[0]]);
      assert cur + [a[0]] + a[1..] == cur + a;
    } else {
      assert cur + a == cur;
    }
  }

  /** Splitting on a character that does not occur gives the whole text as one piece. */
  lemma SplitNoSeparator(s: string, c: char)
    requires c !in s
    ensures Split(s, [c]) == [s]
  {
    forall j | 0 <= j < |s| + 1 && j <= |s|
      ensures !StartsWith(s[j..], [c])
    {
      if j < |s| {
        assert s[j..][..1] == [s[j]];
      }
    }
    SplitFromLast(s, [c], []);
    assert [] + s == s;
  }

  /** The text after the last occurrence of a one-character separator is the last piece. */
  lemma {:induction false} SplitLastSeparator(a: string, c: char, b: string, cur: string)
    requires c !in b
    ensures SplitFrom(a + ([c] + b), [c], cur) == SplitFrom(a, [c], cur) + [b]
    decreases |a|
  {
    var s := a + ([c] + b);
    if a == [] {
      assert s == [c] + b && s[..1] == [c] && s[1..] == b;
      SplitNoSeparator(b, c);
    } else if StartsWith(a, [c]) {
      assert s[..1] == a[..1];
      assert s[1..] == a[1..] + ([c] + b);
      SplitLastSeparator(a[1..], c, b, []);
    } else {
      assert s[..1] == a[..1];
      assert s[1..] == a[1..] + ([c] + b);
      SplitLastSeparator(a[1..], c, b, cur + [a[0]]);
    }
  }

  /**
   * Pieces that, joined with `sep`, produce no occurrence of `sep` other than
   * the ones the join puts between them.
   */
  predicate Separable(pieces: seq<string>, sep: string) {
    && pieces != []
    && (forall k :: 0 <= k < |pieces| - 1 ==>
          NoMatchBefore(pieces[k] + (sep + Join(pieces[k + 1..], sep)), sep, |pieces[k]|))
    && NoMatchBefore(pieces[|pieces| - 1], sep, |pieces[|pieces| - 1]| + 1)
  }

  lemma SeparableTail(pieces: seq<string>, sep: string)
    requires Separable(pieces, sep) && |pieces| > 1
    ensures Separable(pieces[1..], sep)
  {
    var tail := pieces[1..];
    forall k | 0 <= k < |tail| - 1
      ensures NoMatchBefore(tail[k] + (sep + Join(tail[k + 1..], sep)), sep, |tail[k]|)
    {
      assert tail[k + 1..] == pieces[k + 2..];
    }
  }

  /** Joining separable pieces and splitting again gives the pieces back. */
  lemma {:induction false} SplitJoin(pieces: seq<string>, sep: string)
    requires sep != [] && Separable(pieces, sep)
    ensures Split(Join(pieces, sep), sep) == pieces
    decreases |pieces|
  {
    if |pieces| == 1 {
      SplitFromLast(pieces[0], sep, []);
      assert [] + pieces[0] == pieces[0];
    } else {
      var tail := pieces[1..];
      assert Join(pieces, sep) == pieces[0] + (sep + Join(tail, sep));
      SplitFromPiece(pieces[0], sep, Join(tail, sep), []);
      SeparableTail(pieces, sep);
      SplitJoin(tail, sep);
      assert [] + pieces[0] == pieces[0];
    }
  }

  /** `s.replace(pat, "")`: occurrences are removed left to right, without overlap. */
  function RemoveAll(s: string, pat: string): (r: string)
    requires pat != []
    decreases |s|
    ensures |r| <= |s|
  {
    if StartsWith(s, pat) then RemoveAll(s[|pat|..], pat)
    else if s == [] then []
    else [s[0]] + RemoveAll(s[1..], pat)
  }

  lemma {:induction false} RemoveAllAbsent(s: string, pat: string)
    requires pat != []
    requires !Contains(s, pat)
    ensures RemoveAll(s, pat) == s
    decreases |s|
  {
    if s != [] {
      assert !StartsWith(s, pat) by {
        assert s[0..] == s;
      }
      forall i | 0 <= i <= |s[1..]| ensures !StartsWith(s[1..][i..], pat) {
        assert s[1..][i..] == s[i + 1..];
      }
      RemoveAllAbsent(s[1..], pat);
    }
  }

  /** Characters at which `str.splitlines()` ends a line (besides the pair "\r\n"). */
  predicate IsLineBoundary(c: char) {
    var n := c as int;
    0x0A <= n <= 0x0D || 0x1C <= n <= 0x1E || n == 0x85 || n == 0x2028 || n == 0x2029
  }

  /** A text holding no line boundary. */
  predicate OneLine(t: string) {
    forall c :: c in t ==> !IsLineBoundary(c)
  }

  /** `s.splitlines()`, with `cur` the line being accumulated. */
  function SplitLinesFrom(s: string, cur: string): (lines: seq<string>)
    decreases |s|
    ensures forall k :: 0 <= k < |lines| ==> forall c :: c in lines[k] ==> c in cur || c in s
    ensures OneLine(cur) ==> forall k :: 0 <= k < |lines| ==> OneLine(lines[k])
  {
    if s == [] then (if cur == [] then [] else [cur])
    else if |s| >= 2 && s[0] == '\r' && s[1] == '\n' then [cur] + SplitLinesFrom(s[2..], [])
    else if IsLineBoundary(s[0]) then [cur] + SplitLinesFrom(s[1..], [])
    else SplitLinesFrom(s[1..], cur + [s[0]])
  }

  /** `s.splitlines()`: no line holds a line boundary. */
  function SplitLines(s: string): (lines: seq<string>)
    ensures forall k :: 0 <= k < |lines| ==> OneLine(lines[k])
  {
    SplitLinesFrom(s, [])
  }

  lemma {:induction false} SplitLinesFromBound(s: string, cur: string)
    ensures |SplitLinesFrom(s, cur)| <= |s| + (if cur == [] then 0 else 1)
    ensures s != [] || cur != [] ==> |SplitLinesFrom(s, cur)| >= 1
    decreases |s|
  {
    if s == [] {
    } else if |s| >= 2 && s[0] == '\r' && s[1] == '\n' {
      SplitLinesFromBound(s[2..], []);
    } else if IsLineBoundary(s[0]) {
      SplitLinesFromBound(s[1..], []);
    } else {
      SplitLinesFromBound(s[1..], cur + [s[0]]);
    }
  }

  /**
   * `len(s.splitlines())` is zero exactly for the empty string and never
   * exceeds the number of characters.
   */
  lemma LineCountBounds(s: string)
    ensures |SplitLines(s)| <= |s|
    ensures |SplitLines(s)| == 0 <==> s == []
  {
    SplitLinesFromBound(s, []);
  }

  /** Number of bytes of the UTF-8 encoding of one Unicode scalar value. */
  function Utf8Width(c: char): (w: nat)
    ensures 1 <= w <= 4
  {
    var n := c as int;
    if n < 0x80 then 1 else if n < 0x800 then 2 else if n < 0x10000 then 3 else 4
  }

  /** `len(s.encode('utf-8'))` */
  function Utf8Length(s: string): (n: nat)
    ensures |s| <= n <= 4 * |s|
  {
    if s == [] then 0 else Utf8Width(s[0]) + Utf8Length(s[1..])
  }

  lemma {:induction false} Utf8LengthAscii(s: string)
    requires forall i :: 0 <= i < |s| ==> s[i] as int < 0x80
    ensures Utf8Length(s) == |s|
  {
    if s != [] {
      Utf8LengthAscii(s[1..]);
    }
  }

  /** `c.lower()` restricted to ASCII letters. */
  function LowerChar(c: char): (d: char)
    ensures !('A' <= d <= 'Z')
  {
    if 'A' <= c <= 'Z' then (c as int + 32) as char else c
  }

  function Lower(s: string): (r: string)
    ensures |r| == |s|
    ensures forall i :: 0 <= i < |s| ==> r[i] == LowerChar(s[i])
  {
    if s == [] then [] else [LowerChar(s[0])] + Lower(s[1..])
  }
}
