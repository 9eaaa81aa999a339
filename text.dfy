/**
 * Python string primitives used by the core, restricted to ASCII:
 * `isspace`, `isdigit`, `lower`, `strip`, `in` (substring), `split(sep)`,
 * `split(sep, 1)[1]`, `splitlines()` and `replace(pattern, "")`.
 */
module Text {
  import opened Base

  /** `str.isspace()` on one ASCII character: space, \t \n \v \f \r and \x1c-\x1f. */
  predicate IsSpace(c: char) {
    c == ' ' || ('\t' <= c <= '\r') || ('\U{1C}' <= c <= '\U{1F}')
  }

  /** The ASCII digits that `\d` matches. */
  predicate IsDigit(c: char) {
    '0' <= c <= '9'
  }

  function LowerChar(c: char): (r: char)
    ensures 'A' <= c <= 'Z' ==> 'a' <= r <= 'z'
    ensures !('A' <= c <= 'Z') ==> r == c
  {
    if 'A' <= c <= 'Z' then (c as int + 32) as char else c
  }

  /** `str.lower()` on ASCII letters. */
  function Lower(s: string): (r: string)
    ensures |r| == |s|
    ensures forall i :: 0 <= i < |s| ==> r[i] == LowerChar(s[i])
  {
    seq(|s|, i requires 0 <= i < |s| => LowerChar(s[i]))
  }

  predicate AllSpace(s: string) {
    forall i :: 0 <= i < |s| ==> IsSpace(s[i])
  }

  predicate NoEdgeSpace(s: string) {
    s == [] || (!IsSpace(s[0]) && !IsSpace(s[|s| - 1]))
  }

  /** End of the whitespace run that starts at `j` (what a greedy `\s*` consumes). */
  function SpaceRunEnd(s: string, j: nat): (w: nat)
    requires j <= |s|
    ensures j <= w <= |s| && AllSpace(s[j..w])
    ensures w == |s| || !IsSpace(s[w])
    decreases |s| - j
  {
    if j < |s| && IsSpace(s[j]) then
      var w := SpaceRunEnd(s, j + 1);
      assert s[j..w] == [s[j]] + s[j + 1..w];
      w
    else j
  }

  /** `str.lstrip()`: the suffix left after dropping leading whitespace. */
  function StripStart(s: string): (r: string)
    ensures |r| <= |s| && r == s[|s| - |r|..]
    ensures AllSpace(s[..|s| - |r|])
    ensures r == [] || !IsSpace(r[0])
    ensures s != [] && IsSpace(s[0]) ==> |r| < |s|
  {
    s[SpaceRunEnd(s, 0)..]
  }

  /** The whitespace run is the same whether or not a leading whitespace character is counted in it. */
  lemma StripStartStep(s: string)
    ensures StripStart(s) == if s != [] && IsSpace(s[0]) then StripStart(s[1..]) else s
  {
    if s != [] && IsSpace(s[0]) {
      var t := s[1..];
      var w := SpaceRunEnd(t, 0);
      assert s[1..w + 1] == t[..w];
      assert s[0..w + 1] == [s[0]] + t[..w];
      RunEndUnique(s, w + 1, SpaceRunEnd(s, 0));
      assert s[w + 1..] == t[w..];
    }
  }

  /** Only one index ends the leading whitespace run. */
  lemma RunEndUnique(s: string, a: nat, b: nat)
    requires a <= |s| && b <= |s|
    requires AllSpace(s[..a]) && (a == |s| || !IsSpace(s[a]))
    requires AllSpace(s[..b]) && (b == |s| || !IsSpace(s[b]))
    ensures a == b
  {
  }

  /** `str.rstrip()`: the prefix left after dropping trailing whitespace. */
  function StripEnd(s: string): (r: string)
    ensures |r| <= |s| && r == s[..|r|]
    ensures AllSpace(s[|r|..])
    ensures r == [] || !IsSpace(r[|r| - 1])
  {
    if s != [] && IsSpace(s[|s| - 1]) then
      var t := s[..|s| - 1];
      var r := StripEnd(t);
      assert s[..|r|] == t[..|r|];
      assert s[|r|..] == t[|r|..] + [s[|s| - 1]];
      r
    else s
  }

  /** `str.strip()`. */
  function Strip(s: string): (r: string)
    ensures NoEdgeSpace(r)
    ensures |r| <= |s|
    ensures r == [] <==> AllSpace(s)
  {
    var t := StripStart(s);
    var r := StripEnd(t);
    assert r == [] ==> AllSpace(s) by {
      if r == [] {
        assert AllSpace(s[..|s| - |t|]) && AllSpace(t[|r|..]);
        assert s == s[..|s| - |t|] + t;
      }
    }
    r
  }

  /** `strip` removes a whitespace prefix and a whitespace suffix and nothing else. */
  lemma StripParts(s: string) returns (a: nat, b: nat)
    ensures a <= b <= |s| && Strip(s) == s[a..b]
    ensures AllSpace(s[..a]) && AllSpace(s[b..])
  {
    var t := StripStart(s);
    var r := StripEnd(t);
    assert Strip(s) == r;
    a, b := TrimParts(s, t, r);
  }

  /** A prefix of a suffix of `s` is a slice of `s`, with the dropped ends intact. */
  lemma TrimParts(s: string, t: string, r: string) returns (a: nat, b: nat)
    requires |t| <= |s| && t == s[|s| - |t|..] && AllSpace(s[..|s| - |t|])
    requires |r| <= |t| && r == t[..|r|] && AllSpace(t[|r|..])
    ensures a <= b <= |s| && r == s[a..b]
    ensures AllSpace(s[..a]) && AllSpace(s[b..])
  {
    a := |s| - |t|;
    b := a + |r|;
    assert t[|r|..] == s[b..];
  }

  /** A character absent from a stretch of a text is absent from that slice. */
  lemma NotInSlice(s: string, start: nat, end: nat, c: char)
    requires start <= end <= |s| && forall k :: start <= k < end ==> s[k] != c
    ensures c !in s[start..end]
  {
    assert forall k :: 0 <= k < end - start ==> s[start..end][k] == s[start + k];
  }

  /** `strip` adds no character. */
  lemma StripKeepsOut(s: string, c: char)
    requires c !in s
    ensures c !in Strip(s)
  {
    var a, b := StripParts(s);
    assert forall k :: 0 <= k < b - a ==> s[a..b][k] == s[a + k];
  }

  /** `strip` leaves a value without edge whitespace alone. */
  lemma StripNoEdge(s: string)
    requires NoEdgeSpace(s)
    ensures Strip(s) == s
  {
  }

  /** `strip` is idempotent. */
  lemma StripIdempotent(s: string)
    ensures Strip(Strip(s)) == Strip(s)
  {
    StripNoEdge(Strip(s));
  }

  /** Lower-casing never changes whether a character is whitespace. */
  lemma LowerKeepsSpace(c: char)
    ensures IsSpace(LowerChar(c)) == IsSpace(c)
  {
  }

  lemma {:induction false} LowerStripStart(s: string)
    ensures StripStart(Lower(s)) == Lower(StripStart(s))
    decreases |s|
  {
    StripStartStep(s);
    StripStartStep(Lower(s));
    if s != [] {
      LowerKeepsSpace(s[0]);
      if IsSpace(s[0]) {
        LowerTail(s);
        LowerStripStart(s[1..]);
      }
    }
  }

  lemma LowerTail(s: string)
    requires s != []
    ensures Lower(s)[1..] == Lower(s[1..])
  {
    assert forall i :: 0 <= i < |s| - 1 ==> Lower(s)[1..][i] == Lower(s)[i + 1];
  }

  lemma {:induction false} LowerStripEnd(s: string)
    ensures StripEnd(Lower(s)) == Lower(StripEnd(s))
    decreases |s|
  {
    if s != [] {
      LowerKeepsSpace(s[|s| - 1]);
      if IsSpace(s[|s| - 1]) {
        assert Lower(s)[..|s| - 1] == Lower(s[..|s| - 1]);
        LowerStripEnd(s[..|s| - 1]);
      }
    }
  }

  /** `s.lower().strip() == s.strip().lower()`. */
  lemma LowerStrip(s: string)
    ensures Strip(Lower(s)) == Lower(Strip(s))
  {
    LowerStripStart(s);
    LowerStripEnd(StripStart(s));
  }

  /** `x.startswith(p)`. */
  predicate StartsWith(s: string, p: string) {
    |p| <= |s| && s[..|p|] == p
  }

  /** `sub in s`. */
  predicate Contains(s: string, sub: string)
    decreases |s|
  {
    StartsWith(s, sub) || (s != [] && Contains(s[1..], sub))
  }

  /** Index of the first occurrence of `c`, if any. */
  function IndexOf(s: string, c: char): (r: Option<nat>)
    ensures r.Some? ==> r.value < |s| && s[r.value] == c && c !in s[..r.value]
    ensures r.None? <==> c !in s
  {
    if s == [] then None
    else if s[0] == c then Some(0)
    else match IndexOf(s[1..], c)
      case None => None
      case Some(i) => Some(i + 1)
  }

  /** `s.split(":", 1)[1]`: the text after the first colon, or None where Python raises IndexError. */
  function AfterColon(s: string): (r: Option<string>)
    ensures r.None? <==> ':' !in s
    ensures r.Some? ==> exists i :: 0 <= i < |s| && s[i] == ':' && ':' !in s[..i] && r.value == s[i + 1..]
  {
    match IndexOf(s, ':')
    case None => None
    case Some(i) => Some(s[i + 1..])
  }

  /** `s.split(sep)` for a one-character separator. */
  function Split(s: string, sep: char): (r: seq<string>)
    ensures |r| >= 1
    ensures forall k :: 0 <= k < |r| ==> sep !in r[k]
    decreases |s|
  {
    match IndexOf(s, sep)
    case None => [s]
    case Some(i) => [s[..i]] + Split(s[i + 1..], sep)
  }

  /** `sep.join(parts)`. */
  function Join(parts: seq<string>, sep: char): string {
    if |parts| <= 1 then (if parts == [] then "" else parts[0])
    else parts[0] + [sep] + Join(parts[1..], sep)
  }

  /** Splitting and joining on the same separator gives the text back. */
  lemma {:induction false} JoinSplit(s: string, sep: char)
    ensures Join(Split(s, sep), sep) == s
    decreases |s|
  {
    match IndexOf(s, sep)
    case None =>
    case Some(i) =>
      var rest := s[i + 1..];
      JoinSplit(rest, sep);
      assert Split(rest, sep) != [];
      assert s == s[..i] + [sep] + rest;
  }

  /**
   * `str.splitlines()` with the given line-break characters: a "\r\n"
   * pair counts as one break, and text after the last break (if any)
   * forms the last line, so "" gives [] and "a\n" gives ["a"].
   */
  function Lines(s: string, breaks: set<char>): (r: seq<string>)
    ensures forall k :: 0 <= k < |r| ==> forall c :: c in breaks ==> c !in r[k]
    ensures s == [] <==> r == []
    decreases |s|
  {
    if s == [] then []
    else LinesFrom(s, breaks, 0)
  }

  function LinesFrom(s: string, breaks: set<char>, i: nat): (r: seq<string>)
    requires i < |s|
    requires forall j :: 0 <= j < i ==> s[j] !in breaks
    ensures |r| >= 1
    ensures forall k :: 0 <= k < |r| ==> forall c :: c in breaks ==> c !in r[k]
    decreases |s|, |s| - i
  {
    if s[i] in breaks then
      var next := if s[i] == '\r' && i + 1 < |s| && s[i + 1] == '\n' then i + 2 else i + 1;
      assert forall c :: c in breaks ==> c !in s[..i] by {
        forall c | c in breaks ensures c !in s[..i] {
          assert forall j :: 0 <= j < i ==> s[..i][j] == s[j];
        }
      }
      [s[..i]] + Lines(s[next..], breaks)
    else if i + 1 == |s| then
      assert forall c :: c in breaks ==> c !in s by {
        forall c | c in breaks ensures c !in s {
          assert forall j :: 0 <= j < |s| ==> s[j] !in breaks;
        }
      }
      [s]
    else LinesFrom(s, breaks, i + 1)
  }

  /** The first line ends at the first break; the text after that break (and its "\n", after a "\r") holds the rest. */
  lemma LinesFromBreak(s: string, breaks: set<char>, i: nat, n: nat)
    requires i <= n < |s| && s[n] in breaks
    requires forall j :: 0 <= j < n ==> s[j] !in breaks
    ensures var next := if s[n] == '\r' && n + 1 < |s| && s[n + 1] == '\n' then n + 2 else n + 1;
            LinesFrom(s, breaks, i) == [s[..n]] + Lines(s[next..], breaks)
    decreases n - i
  {
    if i < n {
      LinesFromBreak(s, breaks, i + 1, n);
    }
  }

  /** A line ended by "\n" comes first, and the text after it holds the rest. */
  lemma LinesAfterNewline(p: string, v: string)
    requires '\n' !in p
    ensures Lines(p + ['\n'] + v, {'\n'}) == [p] + Lines(v, {'\n'})
  {
    var s := p + ['\n'] + v;
    assert s[|p|] == '\n' && s[..|p|] == p && s[|p| + 1..] == v;
    assert forall j :: 0 <= j < |p| ==> s[j] == p[j];
    LinesFromBreak(s, {'\n'}, 0, |p|);
  }

  /** A text without a break is one line. */
  lemma LinesFromNoBreak(s: string, breaks: set<char>, i: nat)
    requires i < |s|
    requires forall j :: 0 <= j < |s| ==> s[j] !in breaks
    ensures LinesFrom(s, breaks, i) == [s]
    decreases |s| - i
  {
    if i + 1 < |s| {
      LinesFromNoBreak(s, breaks, i + 1);
    }
  }

  /** The position of the first break in a text that has one. */
  lemma FirstBreak(s: string, breaks: set<char>) returns (n: nat)
    requires exists j :: 0 <= j < |s| && s[j] in breaks
    ensures n < |s| && s[n] in breaks
    ensures forall j :: 0 <= j < n ==> s[j] !in breaks
  {
    if s[0] in breaks {
      n := 0;
    } else {
      var j :| 0 <= j < |s| && s[j] in breaks;
      assert s[1..][j - 1] == s[j];
      var m := FirstBreak(s[1..], breaks);
      n := m + 1;
      assert forall j :: 1 <= j < n ==> s[j] == s[1..][j - 1];
    }
  }

  /** The characters that `str.splitlines()` breaks at. */
  const LineBreaks: set<char> :=
    {'\n', '\r', '\U{0B}', '\U{0C}', '\U{1C}', '\U{1D}', '\U{1E}', '\U{85}', '\U{2028}', '\U{2029}'}

  /** `s.replace(p, "")`: remove every non-overlapping occurrence of `p`, scanning left to right. */
  function RemoveAll(s: string, p: string): (r: string)
    requires p != []
    ensures |r| <= |s|
    ensures !Contains(s, p) ==> r == s
    decreases |s|
  {
    if |s| < |p| then s
    else if s[..|p|] == p then RemoveAll(s[|p|..], p)
    else [s[0]] + RemoveAll(s[1..], p)
  }

  /** A removed copy of `p` in front of the text vanishes without a trace. */
  lemma RemoveAllPrefix(p: string, s: string)
    requires p != []
    ensures RemoveAll(p + s, p) == RemoveAll(s, p)
  {
    assert (p + s)[..|p|] == p;
    assert (p + s)[|p|..] == s;
  }

  /** `str.count(c)`. */
  function Count(s: string, c: char): (n: nat)
    ensures n <= |s|
    ensures n == 0 <==> c !in s
  {
    if s == [] then 0 else (if s[0] == c then 1 else 0) + Count(s[1..], c)
  }

  /** `c * n` for a one-character string. */
  function Repeat(c: char, n: nat): (r: string)
    ensures |r| == n
    ensures forall i :: 0 <= i < n ==> r[i] == c
  {
    if n == 0 then [] else [c] + Repeat(c, n - 1)
  }
}
