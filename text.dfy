/** String operations of the JavaScript runtime that the scrapers rely on, stated on
    `string` (a sequence of code points): white-space trimming and collapsing, prefix and
    substring tests, `split` on one character and `join`. */
module Text {

  /** The code points JavaScript counts as WhiteSpace or LineTerminator: what
      `String.prototype.trim` strips and what the regular-expression class `\s` matches. */
  const SpaceChars: set<char> := {
    '\t', '\n', '\U{000B}', '\U{000C}', '\r', ' ', '\U{00A0}', '\U{1680}',
    '\U{2000}', '\U{2001}', '\U{2002}', '\U{2003}', '\U{2004}', '\U{2005}', '\U{2006}',
    '\U{2007}', '\U{2008}', '\U{2009}', '\U{200A}',
    '\U{2028}', '\U{2029}', '\U{202F}', '\U{205F}', '\U{3000}', '\U{FEFF}'
  }

  predicate IsSpace(c: char) {
    c in SpaceChars
  }

  /** Every character of `s` is white space (the empty string included). */
  predicate AllSpace(s: string) {
    forall i :: 0 <= i < |s| ==> IsSpace(s[i])
  }

  /** How many white-space characters `s` starts with. */
  function LeadingSpace(s: string): (n: nat)
    ensures n <= |s|
    ensures forall i :: 0 <= i < n ==> IsSpace(s[i])
    ensures n < |s| ==> !IsSpace(s[n])
    decreases |s|
  {
    if |s| > 0 && IsSpace(s[0]) then 1 + LeadingSpace(s[1..]) else 0
  }

  /** How many white-space characters `s` ends with. */
  function TrailingSpace(s: string): (n: nat)
    ensures n <= |s|
    ensures forall i :: |s| - n <= i < |s| ==> IsSpace(s[i])
    ensures n < |s| ==> !IsSpace(s[|s| - n - 1])
    decreases |s|
  {
    if |s| > 0 && IsSpace(s[|s| - 1]) then 1 + TrailingSpace(s[..|s| - 1]) else 0
  }

  /** `s` with its leading white space removed. */
  function TrimStart(s: string): string {
    s[LeadingSpace(s)..]
  }

  /** `s` with its trailing white space removed. */
  function TrimEnd(s: string): string {
    s[..|s| - TrailingSpace(s)]
  }

  /** `String.prototype.trim`. */
  function Trim(s: string): string {
    TrimEnd(TrimStart(s))
  }

  /** Where the trimmed text starts in the original. */
  function TrimOffset(s: string): nat {
    LeadingSpace(s)
  }

  /** What trim keeps is a slice of the input. */
  lemma TrimSlice(s: string)
    ensures TrimOffset(s) + |Trim(s)| <= |s|
    ensures Trim(s) == s[TrimOffset(s)..TrimOffset(s) + |Trim(s)|]
  {
    var lo := LeadingSpace(s);
    var t := s[lo..];
    assert t[..|t| - TrailingSpace(t)] == s[lo..lo + |t| - TrailingSpace(t)];
  }

  /** What trim keeps neither starts nor ends with white space. */
  lemma TrimEnds(s: string)
    ensures Trim(s) != [] ==> !IsSpace(Trim(s)[0]) && !IsSpace(Trim(s)[|Trim(s)| - 1])
  {
    var lo := LeadingSpace(s);
    var t := s[lo..];
    var k := |t| - TrailingSpace(t);
    if k > 0 {
      assert Trim(s)[0] == t[0] == s[lo];
      assert Trim(s)[k - 1] == t[|t| - TrailingSpace(t) - 1];
    }
  }

  /** Trim gives the empty string exactly for a white-space-only input. */
  lemma TrimEmpty(s: string)
    ensures Trim(s) == [] <==> AllSpace(s)
  {
  }

  /** Trimming twice changes nothing. */
  lemma TrimIdempotent(s: string)
    ensures Trim(Trim(s)) == Trim(s)
  {
    var r := Trim(s);
    TrimEnds(s);
    if r != [] {
      assert LeadingSpace(r) == 0;
      assert TrimStart(r) == r;
      assert TrailingSpace(r) == 0;
    }
  }

  /** `s.replace(/\s+/g, ' ')`: every maximal run of white space becomes one space. */
  function CollapseRuns(s: string): (r: string)
    ensures s == [] <==> r == []
    ensures s != [] && !IsSpace(s[0]) ==> r[0] == s[0]
    ensures s != [] && IsSpace(s[0]) ==> r[0] == ' '
    decreases |s|
  {
    if s == [] then []
    else if IsSpace(s[0]) then [' '] + CollapseRuns(TrimStart(s[1..]))
    else [s[0]] + CollapseRuns(s[1..])
  }

  /** The only white space in `s` is the plain space, never two in a row. */
  predicate SingleSpaced(s: string) {
    forall i :: 0 <= i < |s| && IsSpace(s[i]) ==> s[i] == ' ' && (i + 1 < |s| ==> !IsSpace(s[i + 1]))
  }

  /** `s.replace(/\s+/g, ' ').trim()`: the normalisation the scrapers apply to labels
      and values. */
  function Squish(s: string): string {
    Trim(CollapseRuns(s))
  }

  /** Putting a character in front of a single-spaced text keeps it single-spaced when the
      character is not white space, or is a plain space before a non-space. */
  lemma ConsSingleSpaced(x: char, c: string)
    requires SingleSpaced(c)
    requires IsSpace(x) ==> x == ' ' && (c == [] || !IsSpace(c[0]))
    ensures SingleSpaced([x] + c)
  {
    var r := [x] + c;
    forall i | 0 <= i < |r| && IsSpace(r[i])
      ensures r[i] == ' ' && (i + 1 < |r| ==> !IsSpace(r[i + 1]))
    {
      if i > 0 {
        assert r[i] == c[i - 1];
        assert i + 1 < |r| ==> r[i + 1] == c[i];
      }
    }
  }

  lemma {:induction false} CollapseRunsSingleSpaced(s: string)
    ensures SingleSpaced(CollapseRuns(s))
    decreases |s|
  {
    if s == [] {
    } else if IsSpace(s[0]) {
      var t := TrimStart(s[1..]);
      CollapseRunsSingleSpaced(t);
      ConsSingleSpaced(' ', CollapseRuns(t));
    } else {
      CollapseRunsSingleSpaced(s[1..]);
      ConsSingleSpaced(s[0], CollapseRuns(s[1..]));
    }
  }

  /** A slice of a single-spaced text is single-spaced. */
  lemma SingleSpacedSlice(c: string, lo: nat, n: nat)
    requires SingleSpaced(c) && lo + n <= |c|
    ensures SingleSpaced(c[lo..lo + n])
  {
    var r := c[lo..lo + n];
    forall i | 0 <= i < |r| && IsSpace(r[i])
      ensures r[i] == ' ' && (i + 1 < |r| ==> !IsSpace(r[i + 1]))
    {
      assert r[i] == c[lo + i];
      if i + 1 < |r| {
        assert r[i + 1] == c[lo + i + 1];
      }
    }
  }

  /** A normalised label or value has no white space at either end, and inside it only
      single plain spaces. */
  lemma SquishShape(s: string)
    ensures SingleSpaced(Squish(s))
    ensures Squish(s) != [] ==> !IsSpace(Squish(s)[0]) && !IsSpace(Squish(s)[|Squish(s)| - 1])
  {
    var c := CollapseRuns(s);
    CollapseRunsSingleSpaced(s);
    TrimSlice(c);
    TrimEnds(c);
    SingleSpacedSlice(c, TrimOffset(c), |Trim(c)|);
  }

  /** The code points that end a line: what `.` in a regular expression does not match. */
  predicate IsLineTerminator(c: char) {
    c == '\n' || c == '\r' || c == '\U{2028}' || c == '\U{2029}'
  }

  /** `s.startsWith(p)`. */
  predicate StartsWith(s: string, p: string) {
    |p| <= |s| && s[..|p|] == p
  }

  /** `s.endsWith(p)`. */
  predicate EndsWith(s: string, p: string) {
    |p| <= |s| && s[|s| - |p|..] == p
  }

  /** `s.includes(sub)`. */
  predicate Contains(s: string, sub: string)
    decreases |s|
  {
    StartsWith(s, sub) || (|s| > 0 && Contains(s[1..], sub))
  }

  /** A text that holds `sub` at some position contains it. */
  lemma {:induction false} ContainsAt(s: string, sub: string, k: nat)
    requires k + |sub| <= |s| && s[k..k + |sub|] == sub
    ensures Contains(s, sub)
    decreases k
  {
    if k > 0 {
      assert s[1..][k - 1..k - 1 + |sub|] == sub;
      ContainsAt(s[1..], sub, k - 1);
    }
  }

  /** A text one of whose suffixes starts with `sub` contains it. */
  lemma SuffixStartsWith(s: string, k: nat, sub: string)
    requires k <= |s| && StartsWith(s[k..], sub)
    ensures Contains(s, sub)
  {
    assert s[k..k + |sub|] == s[k..][..|sub|];
    ContainsAt(s, sub, k);
  }

  /** `s.split(c)[0]`: the text before the first `c`, or all of `s` when there is none. */
  function Before(s: string, c: char): (r: string)
    ensures |r| <= |s| && r == s[..|r|]
    ensures c !in r
    ensures |r| < |s| ==> s[|r|] == c
  {
    if s == [] || s[0] == c then [] else [s[0]] + Before(s[1..], c)
  }

  /** Cutting at the first `c` leaves a text without `c`, and cutting it again changes
      nothing. */
  lemma BeforeIdempotent(s: string, c: char)
    ensures Before(Before(s, c), c) == Before(s, c)
  {
    var r := Before(s, c);
    var r' := Before(r, c);
    if |r'| < |r| {
      assert r[|r'|] == c;
    }
  }

  /** The text before the first separator of `a + [c] + b` is `a` when `a` has no `c`. */
  lemma BeforeSeparator(a: string, c: char, b: string)
    requires c !in a
    ensures Before(a + [c] + b, c) == a
  {
    var s := a + [c] + b;
    var r := Before(s, c);
    assert s[..|a|] == a && s[|a|] == c;
    assert forall i :: 0 <= i < |a| ==> s[i] != c;
  }

  /** `s.split(c)` for a one-character separator. */
  function Split(s: string, c: char): (parts: seq<string>)
    ensures |parts| >= 1
    ensures forall i :: 0 <= i < |parts| ==> c !in parts[i]
    decreases |s|
  {
    var head := Before(s, c);
    if |head| == |s| then [s] else [head] + Split(s[|head| + 1..], c)
  }

  /** A text without the separator is one piece. */
  lemma SplitNoSeparator(a: string, c: char)
    requires c !in a
    ensures Split(a, c) == [a]
  {
  }

  /** A piece followed by the separator comes off the front. */
  lemma SplitCons(s: string, h: string, c: char, rest: string)
    requires c !in h && s == h + [c] + rest
    ensures Split(s, c) == [h] + Split(rest, c)
  {
    BeforeSeparator(h, c, rest);
    assert s[|h| + 1..] == rest;
  }

  /** The base case of `SplitAppend`: the left side has no separator. */
  lemma SplitNoSeparatorBefore(a: string, c: char, b: string)
    requires c !in a
    ensures Split(a + [c] + b, c) == Split(a, c) + Split(b, c)
  {
    SplitNoSeparator(a, c);
    SplitCons(a + [c] + b, a, c, b);
  }

  /** The text is the piece before the first separator, the separator and the rest. */
  lemma BeforeSplitsText(a: string, c: char)
    requires c in a
    ensures a == Before(a, c) + [c] + a[|Before(a, c)| + 1..]
  {
    var h := Before(a, c);
    assert |h| < |a|;
  }

  /** The first piece of `a` is also the first piece of `a + [c] + b`. */
  lemma SplitConsAppend(a: string, h: string, c: char, r: string, b: string)
    requires c !in h && a == h + [c] + r
    ensures Split(a + [c] + b, c) == [h] + Split(r + [c] + b, c)
  {
    assert a + [c] + b == h + [c] + (r + [c] + b);
    SplitCons(a + [c] + b, h, c, r + [c] + b);
  }

  /** Regrouping the pieces: `[h] + (pr + pb) == ([h] + pr) + pb`. */
  lemma Regroup(x: seq<string>, y: seq<string>, h: string, pr: seq<string>, pt: seq<string>, pb: seq<string>)
    requires x == [h] + pt && pt == pr + pb && y == [h] + pr
    ensures x == y + pb
  {
    assert [h] + (pr + pb) == ([h] + pr) + pb;
  }

  /** The step of `SplitAppend`: the first piece of `a` comes off both sides. */
  lemma SplitAppendStep(a: string, h: string, c: char, r: string, b: string)
    requires c !in h && a == h + [c] + r
    requires Split(r + [c] + b, c) == Split(r, c) + Split(b, c)
    ensures Split(a + [c] + b, c) == Split(a, c) + Split(b, c)
  {
    SplitCons(a, h, c, r);
    SplitConsAppend(a, h, c, r, b);
    Regroup(Split(a + [c] + b, c), Split(a, c), h, Split(r, c), Split(r + [c] + b, c), Split(b, c));
  }

  /** Splitting at an occurrence of the separator splits the two sides independently. */
  lemma {:induction false} SplitAppend(a: string, c: char, b: string)
    ensures Split(a + [c] + b, c) == Split(a, c) + Split(b, c)
    decreases |a|
  {
    if c !in a {
      SplitNoSeparatorBefore(a, c, b);
    } else {
      var h := Before(a, c);
      var r := a[|h| + 1..];
      BeforeSplitsText(a, c);
      SplitAppend(r, c, b);
      SplitAppendStep(a, h, c, r, b);
    }
  }

  /** Every character of every piece of a split comes from the text. */
  lemma {:induction false} SplitChars(s: string, c: char)
    ensures forall i, x :: 0 <= i < |Split(s, c)| && x in Split(s, c)[i] ==> x in s
    decreases |s|
  {
    var head := Before(s, c);
    if |head| < |s| {
      var rest := s[|head| + 1..];
      SplitChars(rest, c);
      var parts := Split(s, c);
      forall i, x | 0 <= i < |parts| && x in parts[i] ensures x in s {
        if i == 0 {
          var j :| 0 <= j < |head| && head[j] == x;
          assert s[j] == x;
        } else {
          assert parts[i] == Split(rest, c)[i - 1];
          assert x in rest;
          var j :| 0 <= j < |rest| && rest[j] == x;
          assert s[|head| + 1 + j] == x;
        }
      }
    }
  }

  /** `parts.join(c)`. */
  function Join(parts: seq<string>, c: char): string {
    if |parts| == 0 then []
    else if |parts| == 1 then parts[0]
    else parts[0] + [c] + Join(parts[1..], c)
  }

  /** Joining a piece in front of at least one more puts the separator between them. */
  lemma JoinCons(h: string, parts: seq<string>, c: char)
    requires |parts| >= 1
    ensures Join([h] + parts, c) == h + [c] + Join(parts, c)
  {
    assert ([h] + parts)[1..] == parts;
  }

  /** Joining the pieces of a split gives back the text. */
  lemma {:induction false} JoinSplit(s: string, c: char)
    ensures Join(Split(s, c), c) == s
    decreases |s|
  {
    if c in s {
      var head := Before(s, c);
      var rest := s[|head| + 1..];
      BeforeSplitsText(s, c);
      SplitCons(s, head, c, rest);
      JoinSplit(rest, c);
      JoinCons(head, Split(rest, c), c);
    } else {
      SplitNoSeparator(s, c);
    }
  }

  /** Joining one more piece at the end puts the separator before it. */
  lemma {:induction false} JoinSnoc(parts: seq<string>, x: string, c: char)
    requires |parts| >= 1
    ensures Join(parts + [x], c) == Join(parts, c) + [c] + x
    decreases |parts|
  {
    var p := parts + [x];
    if |parts| == 1 {
      assert p[1..] == [x];
    } else {
      assert p[1..] == parts[1..] + [x];
      JoinSnoc(parts[1..], x, c);
      assert Join(p, c) == parts[0] + [c] + (Join(parts[1..], c) + [c] + x);
    }
  }

  /** Splitting a join of separator-free pieces gives back the pieces. */
  lemma {:induction false} SplitJoin(parts: seq<string>, c: char)
    requires |parts| >= 1
    requires forall i :: 0 <= i < |parts| ==> c !in parts[i]
    ensures Split(Join(parts, c), c) == parts
    decreases |parts|
  {
    if |parts| > 1 {
      var rest := Join(parts[1..], c);
      var s := parts[0] + [c] + rest;
      BeforeSeparator(parts[0], c, rest);
      assert s[|parts[0]| + 1..] == rest;
      SplitJoin(parts[1..], c);
    } else {
      assert Before(parts[0], c) == parts[0];
    }
  }

  /** `s.replace(/<c>/g, d)`: every `c` becomes `d`. */
  function ReplaceChar(s: string, c: char, d: char): (r: string)
    ensures |r| == |s|
    ensures forall i :: 0 <= i < |s| ==> r[i] == (if s[i] == c then d else s[i])
  {
    if s == [] then [] else [if s[0] == c then d else s[0]] + ReplaceChar(s[1..], c, d)
  }

  /** `s.replace(/<c>/g, '')`: every `c` removed, the rest kept in order. */
  function RemoveChar(s: string, c: char): (r: string)
    ensures |r| <= |s|
    ensures forall i :: 0 <= i < |r| ==> r[i] != c
    ensures (forall i :: 0 <= i < |s| ==> s[i] != c) ==> r == s
  {
    if s == [] then []
    else if s[0] == c then RemoveChar(s[1..], c)
    else [s[0]] + RemoveChar(s[1..], c)
  }

  /** ASCII upper-case letters to lower case (the `i` flag of a regular expression on the
      ASCII extensions it compares with). */
  function LowerAscii(s: string): (r: string)
    ensures |r| == |s|
    ensures forall i :: 0 <= i < |s| ==> r[i] == (if 'A' <= s[i] <= 'Z' then (s[i] as int + 32) as char else s[i])
  {
    if s == [] then []
    else [if 'A' <= s[0] <= 'Z' then (s[0] as int + 32) as char else s[0]] + LowerAscii(s[1..])
  }
}
