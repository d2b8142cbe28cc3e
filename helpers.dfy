/** The string helpers shared by the scrapers: the slug of a page URL, the object embedded
    in a tooltip holder's class attribute, and the same-site absolute form of a link.
    The WHATWG URL parser and `JSON.parse` are parameters: a function that gives `None`
    where the library throws. */
module Helpers {
  import opened Wrappers
  import Text
  import JsObject

  /** The slug `lib/utils/helpers.js` falls back to. */
  const UnknownSlug := "unknown"
  /** The slug the WildRiftFire scripts fall back to. */
  const ChampionSlug := "champion"

  /** `parts.filter(Boolean)` on strings: the non-empty ones, in order. */
  function NonEmpty(parts: seq<string>): (r: seq<string>)
    ensures |r| <= |parts|
    ensures forall i :: 0 <= i < |r| ==> r[i] != [] && r[i] in parts
    ensures r == [] <==> forall i :: 0 <= i < |parts| ==> parts[i] == []
  {
    if parts == [] then []
    else
      var rest := NonEmpty(parts[1..]);
      assert forall i :: 1 <= i < |parts| ==> parts[i] == parts[1..][i - 1];
      if parts[0] == [] then rest else [parts[0]] + rest
  }

  lemma {:induction false} NonEmptyAppend(a: seq<string>, b: seq<string>)
    ensures NonEmpty(a + b) == NonEmpty(a) + NonEmpty(b)
  {
    if a != [] {
      assert (a + b)[1..] == a[1..] + b;
      NonEmptyAppend(a[1..], b);
    } else {
      assert a + b == b;
    }
  }

  /** The last non-empty `/`-separated segment of a pathname. */
  function LastSegment(path: string): (r: Option<string>)
    ensures r.Some? ==> r.value != [] && '/' !in r.value
  {
    var parts := NonEmpty(Text.Split(path, '/'));
    if parts == [] then None
    else
      assert parts[|parts| - 1] in Text.Split(path, '/');
      Some(parts[|parts| - 1])
  }

  /** `slugFromUrl`: the last non-empty segment of the URL's pathname, or `fallback` when
      there is none or the URL does not parse (`pathname` is `None`). */
  function SlugFromUrl(pathname: Option<string>, fallback: string): (r: string)
    ensures pathname.None? ==> r == fallback
    ensures pathname.Some? ==> r == LastSegment(pathname.value).GetOr(fallback)
  {
    match pathname
    case None => fallback
    case Some(p) => LastSegment(p).GetOr(fallback)
  }

  /** Trailing slashes do not change the slug. */
  lemma LastSegmentTrailingSlash(p: string)
    ensures LastSegment(p + "/") == LastSegment(p)
  {
    Text.SplitAppend(p, '/', []);
    assert p + "/" == p + ['/'] + [];
    assert Text.Split([], '/') == [[]];
    NonEmptyAppend(Text.Split(p, '/'), [[]]);
  }

  /** The slug is the text after the last slash, when that text is not empty. */
  lemma LastSegmentAfterSlash(prefix: string, seg: string)
    requires seg != [] && '/' !in seg
    ensures LastSegment(prefix + "/" + seg) == Some(seg)
    ensures LastSegment(seg) == Some(seg)
  {
    Text.SplitAppend(prefix, '/', seg);
    assert prefix + "/" + seg == prefix + ['/'] + seg;
    assert Text.Split(seg, '/') == [seg];
    NonEmptyAppend(Text.Split(prefix, '/'), [seg]);
  }

  lemma {:induction false} JoinOfEmpties(parts: seq<string>, c: char)
    requires forall i :: 0 <= i < |parts| ==> parts[i] == []
    ensures forall i :: 0 <= i < |Text.Join(parts, c)| ==> Text.Join(parts, c)[i] == c
  {
    if |parts| > 1 {
      JoinOfEmpties(parts[1..], c);
      assert Text.Join(parts, c) == [c] + Text.Join(parts[1..], c);
    }
  }

  /** There is no slug exactly when the pathname is made of slashes only. */
  lemma LastSegmentNone(p: string)
    ensures LastSegment(p).None? <==> forall i :: 0 <= i < |p| ==> p[i] == '/'
  {
    var parts := Text.Split(p, '/');
    if LastSegment(p).None? {
      Text.JoinSplit(p, '/');
      JoinOfEmpties(parts, '/');
    } else {
      var r := NonEmpty(parts);
      var x := r[|r| - 1];
      assert exists i :: 0 <= i < |parts| && parts[i] != [];
      var i :| 0 <= i < |parts| && parts[i] != [];
      Text.SplitChars(p, '/');
      assert parts[i][0] in p && parts[i][0] != '/';
    }
  }

  /** `className.match(/\{.*?\}/)` succeeds with the text from `s[i]` to `s[j]`: a `{`,
      then characters that are neither `}` nor line terminators, then a `}`. */
  predicate BraceMatch(s: string, i: int, j: int) {
    0 <= i < j < |s| && s[i] == '{' && s[j] == '}'
    && forall k :: i < k < j ==> s[k] != '}' && !Text.IsLineTerminator(s[k])
  }

  /** The first `}` at or after `k`, unless a line terminator comes first. */
  function CloseFrom(s: string, i: nat, k: nat): (r: Option<nat>)
    requires i < k <= |s| && s[i] == '{'
    requires forall m :: i < m < k ==> s[m] != '}' && !Text.IsLineTerminator(s[m])
    ensures r.Some? ==> BraceMatch(s, i, r.value)
    ensures r.None? ==> forall j :: !BraceMatch(s, i, j)
    decreases |s| - k
  {
    if k == |s| then None
    else if s[k] == '}' then Some(k)
    else if Text.IsLineTerminator(s[k]) then
      assert forall j :: BraceMatch(s, i, j) ==> j < k;
      None
    else CloseFrom(s, i, k + 1)
  }

  /** The leftmost match of `/\{.*?\}/` at or after `from`, as its first and last index. */
  function FindBraces(s: string, from: nat): (r: Option<(nat, nat)>)
    requires from <= |s|
    ensures r.Some? ==> BraceMatch(s, r.value.0, r.value.1) && from <= r.value.0
    ensures r.Some? ==> forall i, j :: from <= i < r.value.0 ==> !BraceMatch(s, i, j)
    ensures r.None? ==> forall i, j :: from <= i ==> !BraceMatch(s, i, j)
    decreases |s| - from
  {
    if from == |s| then None
    else if s[from] == '{' && from + 1 <= |s| then
      match CloseFrom(s, from, from + 1)
      case Some(j) => Some((from, j))
      case None => FindBraces(s, from + 1)
    else FindBraces(s, from + 1)
  }

  /** The object a tooltip holder carries in its class attribute, `{'i':…,'t':…}`:
      its `i` and `t` properties, `Undefined` when absent. */
  datatype ClassObject = ClassObject(i: JsObject.Value, t: JsObject.Value)

  /** `parseJsonFromClass`: `None` for an empty attribute, for one without a `{…}`
      fragment and for a fragment `parse` rejects; otherwise what `parse` makes of the
      leftmost shortest fragment with every `'` turned into `"`. */
  function ParseJsonFromClass(className: string, parse: string -> Option<ClassObject>): (r: Option<ClassObject>)
    ensures className == [] ==> r.None?
    ensures (forall i, j :: !BraceMatch(className, i, j)) ==> r.None?
    ensures r.Some? ==> className != [] && FindBraces(className, 0).Some?
    ensures FindBraces(className, 0).Some? ==> var (i, j) := FindBraces(className, 0).value;
                                              r == parse(Text.ReplaceChar(className[i..j + 1], '\'', '"'))
  {
    if className == [] then None
    else
      match FindBraces(className, 0)
      case None => None
      case Some((i, j)) => parse(Text.ReplaceChar(className[i..j + 1], '\'', '"'))
  }

  /** `toAbsoluteUrl(href, base, domain)`: the URL `resolve` makes of `href` against
      `base`, cut at its first `#`, provided it starts with `domain`; `None` otherwise and
      when resolution throws. */
  function ToAbsoluteUrl(href: string, base: string, domain: string,
                         resolve: (string, string) -> Option<string>): (r: Option<string>)
    ensures r.Some? <==> resolve(href, base).Some? && Text.StartsWith(resolve(href, base).value, domain)
    ensures r.Some? ==> '#' !in r.value
    ensures r.Some? ==> Text.StartsWith(resolve(href, base).value, r.value)
    ensures r.Some? && |r.value| < |resolve(href, base).value| ==> resolve(href, base).value[|r.value|] == '#'
  {
    match resolve(href, base)
    case None => None
    case Some(abs) => if Text.StartsWith(abs, domain) then Some(Text.Before(abs, '#')) else None
  }

  /** What `toAbsoluteUrl` keeps still starts with a fragment-free `domain` and is its own
      fragment-free form, so cutting it again changes nothing. */
  lemma AbsoluteUrlStable(href: string, base: string, domain: string,
                          resolve: (string, string) -> Option<string>)
    requires '#' !in domain
    ensures var r := ToAbsoluteUrl(href, base, domain, resolve);
            r.Some? ==> Text.StartsWith(r.value, domain) && Text.Before(r.value, '#') == r.value
  {
    var r := ToAbsoluteUrl(href, base, domain, resolve);
    if r.Some? {
      var abs := resolve(href, base).value;
      Text.BeforeIdempotent(abs, '#');
      assert abs[..|domain|] == domain;
      assert r.value[..|domain|] == abs[..|domain|];
    }
  }

  /** The extensions `/\.(png|jpe?g|webp|gif|svg|ico|css|js|json|xml|mp4|webm)$/i` lists. */
  const StaticExtensions: seq<string> :=
    ["png", "jpg", "jpeg", "webp", "gif", "svg", "ico", "css", "js", "json", "xml", "mp4", "webm"]

  /** The URL ends, ignoring ASCII case, in a dot and one of the static extensions. */
  predicate IsStaticAsset(url: string) {
    exists e :: 0 <= e < |StaticExtensions| && Text.EndsWith(Text.LowerAscii(url), "." + StaticExtensions[e])
  }
}
