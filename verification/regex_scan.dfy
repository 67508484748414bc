/**
 * The part of Python's `re` engine that the extractors rely on. Each pattern
 * they use backtracks in a way that can be settled in one left-to-right pass,
 * so a pattern is given here as a matcher: for a start position it says whether
 * the pattern matches there, where the match ends and what its groups hold.
 * `re.findall` and `re.search` then try the start positions in order.
 */
module RegexScan {
  import opened Wrappers
  import opened PyStr

  datatype Match<T> = Match(end: nat, value: T)

  /**
   * `re.findall` from position `i`: try each start position in turn; after a
   * match, carry on from where it ended (one further on for an empty match).
   */
  function FindAllFrom<T>(s: string, i: nat, m: (string, nat) -> Option<Match<T>>): seq<T>
    decreases |s| + 1 - i
  {
    if i > |s| then []
    else
      match m(s, i)
      case Some(r) => [r.value] + FindAllFrom(s, Resume(i, r.end), m)
      case None => FindAllFrom(s, i + 1, m)
  }

  function FindAll<T>(s: string, m: (string, nat) -> Option<Match<T>>): seq<T> {
    FindAllFrom(s, 0, m)
  }

  /** Where `findall` resumes after a match at `i` that ends at `end`. */
  function Resume(i: nat, end: nat): nat {
    if end > i then end else i + 1
  }

  /** The start positions of the matches `FindAllFrom(s, i, m)` reports, in the same order. */
  function MatchStarts<T>(s: string, i: nat, m: (string, nat) -> Option<Match<T>>): seq<nat>
    decreases |s| + 1 - i
  {
    if i > |s| then []
    else
      match m(s, i)
      case Some(r) => [i] + MatchStarts(s, Resume(i, r.end), m)
      case None => MatchStarts(s, i + 1, m)
  }

  /**
   * `findall` reports its values in text order: the k-th value is what the
   * pattern matched at the k-th start position, the start positions increase,
   * and each match ends before the next one starts.
   */
  lemma {:induction false} FindAllInOrder<T>(s: string, i: nat, m: (string, nat) -> Option<Match<T>>)
    ensures var pos, all := MatchStarts(s, i, m), FindAllFrom(s, i, m);
      |pos| == |all|
      && (forall k :: 0 <= k < |pos| ==> i <= pos[k] <= |s| && m(s, pos[k]).Some? && m(s, pos[k]).value.value == all[k])
      && (forall k :: 0 <= k < |pos| - 1 ==> pos[k] < pos[k + 1] && m(s, pos[k]).value.end <= pos[k + 1])
    decreases |s| + 1 - i
  {
    if i <= |s| {
      match m(s, i)
      case Some(r) =>
        var next := Resume(i, r.end);
        FindAllInOrder(s, next, m);
        var tail := MatchStarts(s, next, m);
        assert MatchStarts(s, i, m) == [i] + tail;
        assert FindAllFrom(s, i, m) == [r.value] + FindAllFrom(s, next, m);
      case None =>
        FindAllInOrder(s, i + 1, m);
    }
  }

  /** `re.search` from position `i`: the groups of the first position where the pattern matches. */
  function SearchFrom<T>(s: string, i: nat, m: (string, nat) -> Option<Match<T>>): Option<T>
    decreases |s| + 1 - i
  {
    if i > |s| then None
    else
      match m(s, i)
      case Some(r) => Some(r.value)
      case None => SearchFrom(s, i + 1, m)
  }

  function Search<T>(s: string, m: (string, nat) -> Option<Match<T>>): Option<T> {
    SearchFrom(s, 0, m)
  }

  /** Every value `findall` reports is what the pattern matched at some start position. */
  lemma {:induction false} FindAllSound<T>(s: string, i: nat, m: (string, nat) -> Option<Match<T>>, x: T)
    requires x in FindAllFrom(s, i, m)
    ensures exists j :: i <= j <= |s| && m(s, j).Some? && m(s, j).value.value == x
    decreases |s| + 1 - i
  {
    match m(s, i)
    case Some(r) =>
      if x != r.value {
        var next := Resume(i, r.end);
        FindAllSound(s, next, m, x);
      }
    case None =>
      FindAllSound(s, i + 1, m, x);
  }

  /** `re.search` finds exactly the first value `re.findall` reports, and nothing when it reports none. */
  lemma {:induction false} SearchIsFirst<T>(s: string, i: nat, m: (string, nat) -> Option<Match<T>>)
    ensures var all := FindAllFrom(s, i, m);
      SearchFrom(s, i, m) == if all == [] then None else Some(all[0])
    decreases |s| + 1 - i
  {
    if i <= |s| && m(s, i).None? {
      SearchIsFirst(s, i + 1, m);
    }
  }

  /** Length of the longest run of characters satisfying `p` that starts at `i`. */
  function Run(s: string, i: nat, p: char -> bool): (n: nat)
    requires i <= |s|
    decreases |s| - i
    ensures i + n <= |s|
    ensures forall k :: i <= k < i + n ==> p(s[k])
    ensures i + n == |s| || !p(s[i + n])
  {
    if i == |s| || !p(s[i]) then 0 else 1 + Run(s, i + 1, p)
  }

  /** A run of `n` characters satisfying `p` that stops at the end or at a character that fails `p`. */
  lemma {:induction false} RunExact(s: string, i: nat, n: nat, p: char -> bool)
    requires i + n <= |s| && (forall k :: i <= k < i + n ==> p(s[k])) && (i + n == |s| || !p(s[i + n]))
    decreases n
    ensures Run(s, i, p) == n
  {
    if n > 0 {
      RunExact(s, i + 1, n - 1, p);
    }
  }

  /** No line break in `s[i..j]`: what `.` without DOTALL may cross. */
  predicate NoNewline(s: string, i: nat, j: nat)
    requires i <= j <= |s|
  {
    forall t :: i <= t < j ==> s[t] != '\n'
  }

  /**
   * A lazy `.*?` starting at `i` and followed by a pattern whose matching at a
   * position is `stop` of the rest of the text: the first position where `stop`
   * holds, provided `.` can reach it (any character under DOTALL, anything but a
   * line break otherwise).
   */
  function Lazy(s: string, i: nat, stop: string -> bool, dotAll: bool): (k: Option<nat>)
    requires i <= |s|
    decreases |s| - i
    ensures k.Some? ==> i <= k.value <= |s| && stop(s[k.value..]) && (dotAll || NoNewline(s, i, k.value))
    ensures forall j :: i <= j <= |s| && (k.None? || j < k.value) && (dotAll || NoNewline(s, i, j)) ==> !stop(s[j..])
  {
    if stop(s[i..]) then Some(i)
    else if i == |s| || (!dotAll && s[i] == '\n') then None
    else Lazy(s, i + 1, stop, dotAll)
  }

  /** Python's `\w` restricted to ASCII: letters, digits and '_'. */
  predicate IsWordChar(c: char) {
    'a' <= c <= 'z' || 'A' <= c <= 'Z' || '0' <= c <= '9' || c == '_'
  }

  /** Where `^` matches under MULTILINE: the start of the text or just after a line break. */
  predicate LineStart(s: string, i: nat) {
    i <= |s| && (i == 0 || s[i - 1] == '\n')
  }

  predicate NotNewline(c: char) {
    c != '\n'
  }

  /** The end of the line that contains position `i`: the next line break, or the end. */
  function LineEnd(s: string, i: nat): (e: nat)
    requires i <= |s|
    ensures i <= e <= |s| && NoNewline(s, i, e) && (e == |s| || s[e] == '\n')
  {
    i + Run(s, i, NotNewline)
  }
}
