/**
 * The parts of Go's `strings` package that the program relies on, over `seq<char>`:
 * Index, LastIndex, Split (single-character separator) and TrimSpace, plus the
 * facts about the envelope markers that make the first/last occurrence searches
 * land where the encoder put them.
 */
module Text {

  /** A horizontal rule of `n` dashes, the body of the envelope markers. */
  function Rule(n: nat): (r: string)
    ensures |r| == n && '\n' !in r
  {
    seq(n, _ => '-')
  }

  /** `pat` occurs in `s` starting at position `k`. */
  predicate IsAt(s: string, pat: string, k: int) {
    0 <= k && k + |pat| <= |s| && s[k..k + |pat|] == pat
  }

  /** strings.Index: the first position at which `pat` occurs in `s`, or -1. */
  function Index(s: string, pat: string): (r: int)
    ensures -1 <= r <= |s|
    ensures r >= 0 ==> IsAt(s, pat, r)
    ensures forall k :: 0 <= k && (r < 0 || k < r) ==> !IsAt(s, pat, k)
  {
    IndexFrom(s, pat, 0)
  }

  function IndexFrom(s: string, pat: string, k: nat): (r: int)
    requires k <= |s| + 1
    ensures r == -1 || (k <= r <= |s| && IsAt(s, pat, r))
    ensures forall j :: k <= j && (r < 0 || j < r) ==> !IsAt(s, pat, j)
    decreases |s| + 1 - k
  {
    if k + |pat| > |s| then -1
    else if s[k..k + |pat|] == pat then k
    else IndexFrom(s, pat, k + 1)
  }

  /** strings.LastIndex: the last position at which `pat` occurs in `s`, or -1. */
  function LastIndex(s: string, pat: string): (r: int)
    ensures -1 <= r <= |s|
    ensures r >= 0 ==> IsAt(s, pat, r)
    ensures forall k :: r < k ==> !IsAt(s, pat, k)
  {
    if |pat| > |s| then -1 else LastIndexFrom(s, pat, |s| - |pat|)
  }

  function LastIndexFrom(s: string, pat: string, k: int): (r: int)
    requires -1 <= k && k + |pat| <= |s|
    requires forall j :: k < j ==> !IsAt(s, pat, j)
    ensures -1 <= r <= k && (r >= 0 ==> IsAt(s, pat, r))
    ensures forall j :: r < j ==> !IsAt(s, pat, j)
    decreases k + 1
  {
    if k < 0 then -1
    else if s[k..k + |pat|] == pat then k
    else LastIndexFrom(s, pat, k - 1)
  }

  /** A one-character pattern occurs exactly where that character stands. */
  lemma IsAtChar(s: string, c: char, k: int)
    ensures IsAt(s, [c], k) <==> 0 <= k < |s| && s[k] == c
  {
    if 0 <= k < |s| {
      assert s[k..k + 1] == [s[k]];
    }
  }

  /** `strings.Index(s, string(c))` is the position of the first `c`. */
  lemma IndexOfChar(s: string, c: char, r: int)
    requires r == Index(s, [c])
    ensures r >= 0 ==> r < |s| && s[r] == c
    ensures forall k :: 0 <= k < |s| && (r < 0 || k < r) ==> s[k] != c
  {
    IsAtChar(s, c, r);
    forall k | 0 <= k < |s| && (r < 0 || k < r) ensures s[k] != c {
      IsAtChar(s, c, k);
    }
  }

  /** `strings.LastIndex(s, string(c))` is the position of the last `c`. */
  lemma LastIndexOfChar(s: string, c: char, r: int)
    requires r == LastIndex(s, [c])
    ensures r >= 0 ==> r < |s| && s[r] == c
    ensures forall k :: r < k < |s| ==> s[k] != c
  {
    IsAtChar(s, c, r);
    forall k | r < k < |s| ensures s[k] != c {
      IsAtChar(s, c, k);
    }
  }

  /** The first `c` at position `p` is what `strings.Index(s, string(c))` finds. */
  lemma IndexOfCharAt(s: string, c: char, p: int)
    requires 0 <= p < |s| && s[p] == c
    requires forall k :: 0 <= k < p ==> s[k] != c
    ensures Index(s, [c]) == p
  {
    IsAtChar(s, c, p);
    IndexOfChar(s, c, Index(s, [c]));
  }

  /** When `c` occurs, but not before position `p`, Index finds it at `p` or later. */
  lemma IndexOfCharFrom(s: string, c: char, p: int)
    requires c in s
    requires forall k :: 0 <= k < p && k < |s| ==> s[k] != c
    ensures Index(s, [c]) >= p && Index(s, [c]) >= 0
  {
    var k :| 0 <= k < |s| && s[k] == c;
    IsAtChar(s, c, k);
    IndexOfChar(s, c, Index(s, [c]));
  }

  /** The last `c` at position `p` is what `strings.LastIndex(s, string(c))` finds. */
  lemma LastIndexOfCharAt(s: string, c: char, p: int)
    requires 0 <= p < |s| && s[p] == c
    requires forall k :: p < k < |s| ==> s[k] != c
    ensures LastIndex(s, [c]) == p
  {
    IsAtChar(s, c, p);
    LastIndexOfChar(s, c, LastIndex(s, [c]));
  }

  /** The pieces of `s` between the occurrences of `sep`, joined back with it. */
  function JoinWith(parts: seq<string>, sep: char): string
    requires |parts| >= 1
  {
    if |parts| == 1 then parts[0] else parts[0] + [sep] + JoinWith(parts[1..], sep)
  }

  /** strings.Split with a one-character separator. */
  function Split(s: string, sep: char): (parts: seq<string>)
    ensures |parts| >= 1
    ensures forall i :: 0 <= i < |parts| ==> sep !in parts[i]
    ensures JoinWith(parts, sep) == s
  {
    if |s| == 0 then [""]
    else
      var rest := Split(s[1..], sep);
      if s[0] == sep then
        assert s == [sep] + s[1..];
        [""] + rest
      else
        var parts := [[s[0]] + rest[0]] + rest[1..];
        assert parts[1..] == rest[1..];
        assert s == [s[0]] + s[1..];
        parts
  }

  /** Splitting undoes joining when no piece contains the separator. */
  lemma {:induction false} SplitJoin(parts: seq<string>, sep: char)
    requires |parts| >= 1
    requires forall i :: 0 <= i < |parts| ==> sep !in parts[i]
    ensures Split(JoinWith(parts, sep), sep) == parts
  {
    var s := JoinWith(parts, sep);
    var r := Split(s, sep);
    if |parts| > 1 {
      SplitJoin(parts[1..], sep);
    }
    SplitUnique(s, sep, parts, r);
  }

  lemma {:induction false} JoinWithAppend(p: seq<string>, q: seq<string>, sep: char)
    requires |p| >= 1 && |q| >= 1
    ensures JoinWith(p + q, sep) == JoinWith(p, sep) + [sep] + JoinWith(q, sep)
    decreases |p|
  {
    if |p| == 1 {
      assert (p + q)[1..] == q;
    } else {
      JoinWithAppend(p[1..], q, sep);
      assert (p + q)[1..] == p[1..] + q;
    }
  }

  /** Splitting at one separator splits the two sides independently. */
  lemma SplitAt(x: string, y: string, sep: char)
    ensures Split(x + [sep] + y, sep) == Split(x, sep) + Split(y, sep)
  {
    var a, b := Split(x, sep), Split(y, sep);
    JoinWithAppend(a, b, sep);
    SeparatorFreeAppend(a, b, sep);
    SplitUnique(x + [sep] + y, sep, a + b, Split(x + [sep] + y, sep));
  }

  /** Two separator-free pieces joined by the separator split back into the two. */
  lemma SplitTwo(a: string, b: string, sep: char)
    requires sep !in a && sep !in b
    ensures Split(a + [sep] + b, sep) == [a, b]
  {
    SplitJoin([a, b], sep);
    assert JoinWith([a, b], sep) == a + [sep] + b;
  }

  lemma SeparatorFreeAppend(a: seq<string>, b: seq<string>, sep: char)
    requires forall i :: 0 <= i < |a| ==> sep !in a[i]
    requires forall i :: 0 <= i < |b| ==> sep !in b[i]
    ensures forall i :: 0 <= i < |a + b| ==> sep !in (a + b)[i]
  {
    forall i | 0 <= i < |a + b| ensures sep !in (a + b)[i] {
      if i >= |a| {
        assert (a + b)[i] == b[i - |a|];
      }
    }
  }

  /** The first piece is the text before the first separator. */
  lemma FirstPiece(parts: seq<string>, sep: char)
    requires |parts| >= 1
    requires sep !in parts[0]
    ensures |parts[0]| <= |JoinWith(parts, sep)|
    ensures parts[0] == JoinWith(parts, sep)[..|parts[0]|]
    ensures |parts| == 1 <==> |parts[0]| == |JoinWith(parts, sep)|
    ensures |parts| > 1 ==> JoinWith(parts, sep)[|parts[0]|] == sep
    ensures |parts| > 1 ==> JoinWith(parts, sep)[|parts[0]| + 1..] == JoinWith(parts[1..], sep)
  {
  }

  /** Two separator-free splittings of the same text are the same. */
  lemma {:induction false} SplitUnique(s: string, sep: char, a: seq<string>, b: seq<string>)
    requires |a| >= 1 && |b| >= 1
    requires forall i :: 0 <= i < |a| ==> sep !in a[i]
    requires forall i :: 0 <= i < |b| ==> sep !in b[i]
    requires JoinWith(a, sep) == s && JoinWith(b, sep) == s
    ensures a == b
    decreases |a|
  {
    FirstPiece(a, sep);
    FirstPiece(b, sep);
    assert |a[0]| == |b[0]|;
    assert a[0] == b[0];
    if |a| > 1 {
      SplitUnique(JoinWith(a[1..], sep), sep, a[1..], b[1..]);
      assert a == [a[0]] + a[1..] && b == [b[0]] + b[1..];
    }
  }

  /** unicode.IsSpace: the characters strings.TrimSpace removes. */
  predicate IsSpace(c: char) {
    c == ' ' || c == '\t' || c == '\n' || c == '\U{000B}' || c == '\U{000C}' || c == '\r'
    || c == '\U{0085}' || c == '\U{00A0}' || c == '\U{1680}'
    || ('\U{2000}' <= c <= '\U{200A}')
    || c == '\U{2028}' || c == '\U{2029}' || c == '\U{202F}' || c == '\U{205F}' || c == '\U{3000}'
  }

  function TrimLeft(s: string): (r: string)
    ensures |r| <= |s| && r == s[|s| - |r|..]
    ensures forall i :: 0 <= i < |s| - |r| ==> IsSpace(s[i])
    ensures r == [] || !IsSpace(r[0])
  {
    if |s| > 0 && IsSpace(s[0]) then TrimLeft(s[1..]) else s
  }

  function TrimRight(s: string): (r: string)
    ensures |r| <= |s| && r == s[..|r|]
    ensures forall i :: |r| <= i < |s| ==> IsSpace(s[i])
    ensures r == [] || !IsSpace(r[|r| - 1])
  {
    if |s| > 0 && IsSpace(s[|s| - 1]) then TrimRight(s[..|s| - 1]) else s
  }

  /** strings.TrimSpace: `s` without its leading and trailing white space. */
  function TrimSpace(s: string): (r: string)
  {
    TrimRight(TrimLeft(s))
  }

  lemma {:induction false} TrimLeftSpaces(pre: string, y: string)
    requires forall i :: 0 <= i < |pre| ==> IsSpace(pre[i])
    requires |y| > 0 && !IsSpace(y[0])
    ensures TrimLeft(pre + y) == y
  {
    if |pre| > 0 {
      assert (pre + y)[1..] == pre[1..] + y;
      TrimLeftSpaces(pre[1..], y);
    }
  }

  lemma {:induction false} TrimRightSpaces(y: string, post: string)
    requires forall i :: 0 <= i < |post| ==> IsSpace(post[i])
    requires |y| > 0 && !IsSpace(y[|y| - 1])
    ensures TrimRight(y + post) == y
  {
    if |post| > 0 {
      var last := |post| - 1;
      assert (y + post)[..|y + post| - 1] == y + post[..last];
      TrimRightSpaces(y, post[..last]);
    }
  }

  /** Text that starts and ends with a non-space character survives trimming of surrounding spaces. */
  lemma TrimSpaceAround(pre: string, x: string, post: string)
    requires forall i :: 0 <= i < |pre| ==> IsSpace(pre[i])
    requires forall i :: 0 <= i < |post| ==> IsSpace(post[i])
    requires |x| > 0 && !IsSpace(x[0]) && !IsSpace(x[|x| - 1])
    ensures TrimSpace(pre + x + post) == x
  {
    assert pre + x + post == pre + (x + post);
    TrimLeftSpaces(pre, x + post);
    TrimRightSpaces(x, post);
  }

  /** `s` contains no empty line: no two consecutive newlines. */
  predicate NoBlankLine(s: string) {
    forall i :: 0 <= i < |s| - 1 ==> s[i] != '\n' || s[i + 1] != '\n'
  }

  lemma NoBlankLineConcat(a: string, b: string)
    requires NoBlankLine(a) && NoBlankLine(b)
    requires |a| == 0 || |b| == 0 || a[|a| - 1] != '\n' || b[0] != '\n'
    ensures NoBlankLine(a + b)
  {
    var s := a + b;
    forall i | 0 <= i < |s| - 1 ensures s[i] != '\n' || s[i + 1] != '\n' {
      if i + 1 < |a| {
        assert s[i] == a[i] && s[i + 1] == a[i + 1];
      } else if i >= |a| {
        assert s[i] == b[i - |a|] && s[i + 1] == b[i + 1 - |a|];
      }
    }
  }

  /** A single newline-free line followed by its newline has no blank line. */
  lemma NoBlankLineLine(line: string)
    requires '\n' !in line
    ensures NoBlankLine(line + "\n")
  {
    var s := line + "\n";
    forall i | 0 <= i < |s| - 1 ensures s[i] != '\n' || s[i + 1] != '\n' {
      assert s[i] == line[i];
    }
  }

  /**
   * A header-end marker (no newline except the two that end it, and not starting
   * with one) is first found right after any text that has no blank line.
   */
  lemma FirstOccurrence(p: string, m: string, rest: string)
    requires |m| >= 3 && m[0] != '\n' && m[|m| - 2] == '\n' && m[|m| - 1] == '\n'
    requires '\n' !in m[..|m| - 2]
    requires NoBlankLine(p)
    ensures Index(p + m + rest, m) == |p|
  {
    var s := p + m + rest;
    assert s[|p|..|p| + |m|] == m;
    assert IsAt(s, m, |p|);
  }

  /**
   * A signature marker (starting with two newlines and holding no other) is last
   * found where it was put, when the text after it has no blank line.
   */
  lemma LastOccurrence(a: string, m: string, f: string)
    requires |m| >= 3 && m[0] == '\n' && m[1] == '\n' && '\n' !in m[2..]
    requires NoBlankLine(f)
    ensures LastIndex(a + m + f, m) == |a|
  {
    var s := a + m + f;
    assert s[|a|..|a| + |m|] == m;
    assert IsAt(s, m, |a|);
  }
}
