/**
 * app/utils.py: the lenient length check on a review and the whitespace
 * clean-up `clean_text`, which is `re.sub(r'\s+', ' ', text).strip()`.
 */
module Utils {
  import opened Text

  /** `validate_review`: false for empty text or fewer than 10 characters once stripped. */
  function ValidateReview(text: string): (ok: bool)
    ensures ok ==> text != [] && |text| >= 10
    ensures ok <==> |Strip(text)| >= 10
  {
    !(text == [] || |Strip(text)| < 10)
  }

  /** The characters of `s` that are not whitespace, in order. */
  function NonSpace(s: string): string {
    if s == [] then [] else (if IsSpace(s[0]) then [] else [s[0]]) + NonSpace(s[1..])
  }

  /** Every whitespace character is a plain space and no two whitespace characters are adjacent. */
  predicate SingleSpaced(r: string) {
    forall i :: 0 <= i < |r| && IsSpace(r[i]) ==> r[i] == ' ' && (i + 1 < |r| ==> !IsSpace(r[i + 1]))
  }

  /** What `clean_text` promises of its output. */
  predicate IsClean(r: string) {
    NoEdgeSpace(r) && SingleSpaced(r)
  }

  /** `re.sub(r'\s+', ' ', s)`: every maximal whitespace run becomes one space. */
  function Collapse(s: string): (r: string)
    ensures SingleSpaced(r)
    ensures r == [] <==> s == []
    ensures s != [] ==> (IsSpace(r[0]) <==> IsSpace(s[0]))
    decreases |s|
  {
    if s == [] then []
    else if IsSpace(s[0]) then
      var t := StripStart(s);
      SingleSpacedCons(' ', Collapse(t));
      [' '] + Collapse(t)
    else
      SingleSpacedCons(s[0], Collapse(s[1..]));
      [s[0]] + Collapse(s[1..])
  }

  lemma SingleSpacedCons(c: char, r: string)
    requires SingleSpaced(r)
    requires IsSpace(c) ==> c == ' ' && (r == [] || !IsSpace(r[0]))
    ensures SingleSpaced([c] + r)
  {
    var cr := [c] + r;
    forall i | 0 <= i < |cr| && IsSpace(cr[i])
      ensures cr[i] == ' ' && (i + 1 < |cr| ==> !IsSpace(cr[i + 1]))
    {
      if i > 0 {
        assert cr[i] == r[i - 1];
        if i + 1 < |cr| { assert cr[i + 1] == r[i]; }
      }
    }
  }

  /** `clean_text`. */
  function CleanText(text: string): (r: string)
    ensures IsClean(r)
    ensures NonSpace(r) == NonSpace(text)
  {
    CleanTextFacts(text);
    Strip(Collapse(text))
  }

  lemma CleanTextFacts(text: string)
    ensures IsClean(Strip(Collapse(text)))
    ensures NonSpace(Strip(Collapse(text))) == NonSpace(text)
  {
    var c := Collapse(text);
    CollapseKeepsNonSpace(text);
    var a, b := StripParts(c);
    SingleSpacedSlice(c, a, b);
    NonSpaceOfStrip(c, a, b);
  }

  lemma NonSpaceOfStrip(c: string, a: nat, b: nat)
    requires a <= b <= |c| && AllSpace(c[..a]) && AllSpace(c[b..])
    ensures NonSpace(c[a..b]) == NonSpace(c)
  {
    var x, m, y := c[..a], c[a..b], c[b..];
    assert c == x + m + y;
    NonSpaceAppend(x, m);
    NonSpaceAppend(x + m, y);
    NonSpaceAllSpace(x);
    NonSpaceAllSpace(y);
  }

  lemma {:induction false} NonSpaceAppend(a: string, b: string)
    ensures NonSpace(a + b) == NonSpace(a) + NonSpace(b)
    decreases |a|
  {
    if a == [] {
      assert a + b == b;
    } else {
      var ab, head := a + b, if IsSpace(a[0]) then [] else [a[0]];
      assert ab[0] == a[0] && ab[1..] == a[1..] + b;
      assert NonSpace(ab) == head + NonSpace(a[1..] + b);
      NonSpaceAppend(a[1..], b);
      assert head + (NonSpace(a[1..]) + NonSpace(b)) == (head + NonSpace(a[1..])) + NonSpace(b);
    }
  }

  lemma {:induction false} NonSpaceAllSpace(a: string)
    requires AllSpace(a)
    ensures NonSpace(a) == []
    decreases |a|
  {
    if a != [] {
      NonSpaceAllSpace(a[1..]);
    }
  }

  lemma {:induction false} CollapseKeepsNonSpace(s: string)
    ensures NonSpace(Collapse(s)) == NonSpace(s)
    decreases |s|
  {
    if s == [] {
    } else if IsSpace(s[0]) {
      var t := StripStart(s);
      CollapseKeepsNonSpace(t);
      assert s == s[..|s| - |t|] + t;
      NonSpaceAppend(s[..|s| - |t|], t);
      NonSpaceAllSpace(s[..|s| - |t|]);
      NonSpaceAppend([' '], Collapse(t));
    } else {
      CollapseKeepsNonSpace(s[1..]);
      NonSpaceAppend([s[0]], Collapse(s[1..]));
      assert s == [s[0]] + s[1..];
      NonSpaceAppend([s[0]], s[1..]);
    }
  }

  lemma SingleSpacedSlice(c: string, a: nat, b: nat)
    requires a <= b <= |c| && SingleSpaced(c)
    ensures SingleSpaced(c[a..b])
  {
    forall i | 0 <= i < b - a && IsSpace(c[a..b][i])
      ensures c[a..b][i] == ' ' && (i + 1 < b - a ==> !IsSpace(c[a..b][i + 1]))
    {
      assert c[a..b][i] == c[a + i];
      if i + 1 < b - a { assert c[a..b][i + 1] == c[a + i + 1]; }
    }
  }

  /** Collapsing text that is already single-spaced changes nothing. */
  lemma {:induction false} CollapseSingleSpaced(s: string)
    requires SingleSpaced(s)
    ensures Collapse(s) == s
    decreases |s|
  {
    if s != [] {
      SingleSpacedTail(s);
      if IsSpace(s[0]) {
        StripStartStep(s);
        assert s[1..] == [] || !IsSpace(s[1..][0]);
        StripStartStep(s[1..]);
      }
      CollapseSingleSpaced(s[1..]);
      assert Collapse(s) == [s[0]] + Collapse(s[1..]);
      assert s == [s[0]] + s[1..];
    }
  }

  lemma SingleSpacedTail(s: string)
    requires s != [] && SingleSpaced(s)
    ensures SingleSpaced(s[1..])
  {
    var t := s[1..];
    forall i | 0 <= i < |t| && IsSpace(t[i])
      ensures t[i] == ' ' && (i + 1 < |t| ==> !IsSpace(t[i + 1]))
    {
      assert t[i] == s[i + 1];
      if i + 1 < |t| { assert t[i + 1] == s[i + 2]; }
    }
  }

  /** Text that is already clean is a fixed point of `clean_text`. */
  lemma CleanTextOfClean(s: string)
    requires IsClean(s)
    ensures CleanText(s) == s
  {
    CollapseSingleSpaced(s);
    StripNoEdge(s);
  }

  /** `clean_text` is idempotent. */
  lemma CleanTextIdempotent(s: string)
    ensures CleanText(CleanText(s)) == CleanText(s)
  {
    CleanTextOfClean(CleanText(s));
  }

  /** `clean_text` leaves no newline and no tab, and maps "" to "". */
  lemma CleanTextNoBreaks(s: string)
    ensures '\n' !in CleanText(s) && '\t' !in CleanText(s)
    ensures CleanText("") == ""
  {
    var r := CleanText(s);
    forall i | 0 <= i < |r| ensures r[i] != '\n' && r[i] != '\t' {
      if IsSpace(r[i]) { assert r[i] == ' '; }
    }
  }

  /** Length of the longest whitespace-free prefix of `t`. */
  function WordLen(t: string): (n: nat)
    ensures n <= |t|
    ensures forall i :: 0 <= i < n ==> !IsSpace(t[i])
    ensures n == |t| || IsSpace(t[n])
    ensures t != [] && !IsSpace(t[0]) ==> n > 0
  {
    if t == [] || IsSpace(t[0]) then 0 else 1 + WordLen(t[1..])
  }

  /** A non-empty run of non-whitespace characters. */
  predicate IsWord(w: string) {
    w != [] && forall i :: 0 <= i < |w| ==> !IsSpace(w[i])
  }

  /** `str.split()` without arguments: the maximal whitespace-free runs, in order. */
  function Words(s: string): (ws: seq<string>)
    ensures forall k :: 0 <= k < |ws| ==> IsWord(ws[k])
    decreases |s|
  {
    var t := StripStart(s);
    if t == [] then []
    else
      var n := WordLen(t);
      assert IsWord(t[..n]);
      var rest := Words(t[n..]);
      WordsCons(t[..n], rest);
      [t[..n]] + rest
  }

  lemma WordsCons(w: string, rest: seq<string>)
    requires IsWord(w) && forall k :: 0 <= k < |rest| ==> IsWord(rest[k])
    ensures forall k :: 0 <= k < |[w] + rest| ==> IsWord(([w] + rest)[k])
  {
    var ws := [w] + rest;
    forall k | 0 <= k < |ws| ensures IsWord(ws[k]) {
      if k > 0 { assert ws[k] == rest[k - 1]; }
    }
  }

  lemma {:induction false} CollapseWord(w: string, rest: string)
    requires forall i :: 0 <= i < |w| ==> !IsSpace(w[i])
    ensures Collapse(w + rest) == w + Collapse(rest)
    decreases |w|
  {
    if w == [] {
      assert w + rest == rest;
    } else {
      assert (w + rest)[0] == w[0] && (w + rest)[1..] == w[1..] + rest;
      CollapseWord(w[1..], rest);
    }
  }

  /** `re.sub(r'\s+', ' ', s)` is the words joined by single spaces, with at most whitespace around them. */
  lemma {:induction false} CollapseShape(s: string) returns (x: string, y: string)
    ensures AllSpace(x) && AllSpace(y)
    ensures Collapse(s) == x + Join(Words(s), ' ') + y
    ensures Words(s) != [] ==> x == (if IsSpace(s[0]) then " " else "")
    decreases |s|, 1
  {
    if s == [] {
      x, y := "", "";
      EmptyShape();
    } else if IsSpace(s[0]) {
      x, y := CollapseShapeSpace(s);
    } else {
      x, y := CollapseShapeWord(s);
    }
  }

  lemma EmptyShape()
    ensures Collapse("") == "" + Join(Words(""), ' ') + ""
  {
    assert Words("") == [];
  }

  lemma {:induction false} CollapseShapeSpace(s: string) returns (x: string, y: string)
    requires s != [] && IsSpace(s[0])
    ensures AllSpace(x) && AllSpace(y)
    ensures Collapse(s) == x + Join(Words(s), ' ') + y
    ensures Words(s) != [] ==> x == " "
    decreases |s|, 0
  {
    var t := LeadingSpaceRun(s);
    var x', y' := CollapseShape(t);
    x, y := " " + x', y';
    SpaceThenSpaces(x');
    ConcatShift(" ", Collapse(t), x', Join(Words(t), ' '), y');
  }

  /** A leading whitespace run collapses to one space and separates no words. */
  lemma LeadingSpaceRun(s: string) returns (t: string)
    requires s != [] && IsSpace(s[0])
    ensures |t| < |s| && (t == [] || !IsSpace(t[0]))
    ensures Words(s) == Words(t) && (t == [] ==> Words(s) == [])
    ensures Collapse(s) == " " + Collapse(t)
  {
    t := StripStart(s);
    assert StripStart(t) == t;
  }

  lemma SpaceThenSpaces(b: string)
    requires AllSpace(b)
    ensures AllSpace(" " + b)
  {
    var sb := " " + b;
    forall i | 0 <= i < |sb| ensures IsSpace(sb[i]) {
      if i > 0 { assert sb[i] == b[i - 1]; }
    }
  }

  lemma AllSpaceAppend(a: string, b: string)
    requires AllSpace(a) && AllSpace(b)
    ensures AllSpace(a + b)
  {
    forall i | 0 <= i < |a + b| ensures IsSpace((a + b)[i]) {
      if i < |a| { assert (a + b)[i] == a[i]; } else { assert (a + b)[i] == b[i - |a|]; }
    }
  }

  lemma ConcatWordOnly(c: string, w: string, t: string, x: string, j: string, y: string)
    requires c == w + t && t == x + j + y && j == []
    ensures c == "" + w + (x + y)
  {
  }

  lemma ConcatWordThen(c: string, w: string, t: string, j: string, y: string)
    requires c == w + t && t == " " + j + y
    ensures c == "" + (w + " " + j) + y
  {
  }

  lemma ConcatShift(p: string, t: string, x: string, j: string, y: string)
    requires t == x + j + y
    ensures p + t == (p + x) + j + y
  {
  }

  lemma {:induction false} CollapseShapeWord(s: string) returns (x: string, y: string)
    requires s != [] && !IsSpace(s[0])
    ensures AllSpace(x) && AllSpace(y)
    ensures Collapse(s) == x + Join(Words(s), ' ') + y
    ensures x == ""
    decreases |s|, 0
  {
    var w, rest := LeadingWord(s);
    var x', y' := CollapseShape(rest);
    if Words(rest) == [] {
      x, y := "", x' + y';
      assert Join([w], ' ') == w;
      AllSpaceAppend(x', y');
      ConcatWordOnly(Collapse(s), w, Collapse(rest), x', Join(Words(rest), ' '), y');
    } else {
      x, y := "", y';
      assert rest != [] && IsSpace(rest[0]);
      JoinCons(w, Words(rest));
      ConcatWordThen(Collapse(s), w, Collapse(rest), Join(Words(rest), ' '), y');
    }
  }

  /** A text that starts with a word is that word, then words and whitespace that start with whitespace. */
  lemma LeadingWord(s: string) returns (w: string, rest: string)
    requires s != [] && !IsSpace(s[0])
    ensures |rest| < |s| && (rest == [] || IsSpace(rest[0]))
    ensures Words(s) == [w] + Words(rest)
    ensures Collapse(s) == w + Collapse(rest)
  {
    var n := WordLen(s);
    w, rest := s[..n], s[n..];
    assert s == w + rest;
    assert StripStart(s) == s;
    CollapseWord(w, rest);
  }

  lemma JoinCons(w: string, ws: seq<string>)
    requires ws != []
    ensures Join([w] + ws, ' ') == w + " " + Join(ws, ' ')
  {
    assert ([w] + ws)[0] == w && ([w] + ws)[1..] == ws;
  }

  lemma {:induction false} JoinWordsEdges(ws: seq<string>)
    requires forall k :: 0 <= k < |ws| ==> IsWord(ws[k])
    ensures NoEdgeSpace(Join(ws, ' '))
    ensures ws != [] ==> Join(ws, ' ') != []
  {
    if |ws| > 1 {
      JoinWordsEdges(ws[1..]);
      var j := Join(ws, ' ');
      assert j == ws[0] + [' '] + Join(ws[1..], ' ');
      assert j[0] == ws[0][0];
      assert j[|j| - 1] == Join(ws[1..], ' ')[|Join(ws[1..], ' ')| - 1];
    } else if |ws| == 1 {
      assert ws[0][|ws[0]| - 1] == ws[0][|ws[0]| - 1];
    }
  }

  lemma StripStartAfterSpace(x: string, t: string)
    requires AllSpace(x)
    ensures StripStart(x + t) == StripStart(t)
  {
    var xt, w := x + t, SpaceRunEnd(t, 0);
    assert xt[..|x| + w] == x + t[..w];
    AllSpaceAppend(x, t[..w]);
    if |x| + w < |xt| {
      assert xt[|x| + w] == t[w];
    }
    RunEndUnique(xt, |x| + w, SpaceRunEnd(xt, 0));
    assert xt[|x| + w..] == t[w..];
  }

  lemma {:induction false} StripEndBeforeSpace(t: string, y: string)
    requires AllSpace(y)
    ensures StripEnd(t + y) == StripEnd(t)
    decreases |y|
  {
    if y == [] {
      assert t + y == t;
    } else {
      var y' := y[..|y| - 1];
      assert (t + y)[..|t + y| - 1] == t + y';
      StripEndBeforeSpace(t, y');
    }
  }

  /** `clean_text(s)` equals `" ".join(s.split())`: the words of the input, in order, one space apart. */
  lemma CleanTextIsJoinedWords(s: string)
    ensures CleanText(s) == Join(Words(s), ' ')
  {
    var x, y := CollapseShape(s);
    var j := Join(Words(s), ' ');
    JoinWordsEdges(Words(s));
    StripAround(Collapse(s), x, j, y);
  }

  lemma StripAround(c: string, x: string, j: string, y: string)
    requires c == x + j + y && AllSpace(x) && AllSpace(y) && NoEdgeSpace(j)
    ensures Strip(c) == j
  {
    if j == [] {
      assert c == x + y;
      AllSpaceAppend(x, y);
    } else {
      assert c == x + (j + y);
      StripStartAfterSpace(x, j + y);
      assert StripStart(j + y) == j + y by {
        assert (j + y)[0] == j[0];
      }
      StripEndBeforeSpace(j, y);
    }
  }

}
