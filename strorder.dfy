/** The order JavaScript's default `Array.prototype.sort` puts strings in, and the sorted,
    duplicate-free list `Array.from(set).sort()` builds from a set. */
module StringOrder {

  /** `a < b` on strings: lexicographic by character, a proper prefix first. */
  predicate Less(a: string, b: string)
    decreases |a|
  {
    if a == [] then b != []
    else if b == [] then false
    else a[0] < b[0] || (a[0] == b[0] && Less(a[1..], b[1..]))
  }

  lemma {:induction false} LessIrreflexive(a: string)
    ensures !Less(a, a)
    decreases |a|
  {
    if a != [] {
      LessIrreflexive(a[1..]);
    }
  }

  lemma {:induction false} LessTransitive(a: string, b: string, c: string)
    requires Less(a, b) && Less(b, c)
    ensures Less(a, c)
    decreases |a|
  {
    if a != [] && a[0] == b[0] && b[0] == c[0] {
      LessTransitive(a[1..], b[1..], c[1..]);
    }
  }

  lemma {:induction false} LessTotal(a: string, b: string)
    requires a != b
    ensures Less(a, b) || Less(b, a)
    decreases |a|
  {
    if a != [] && b != [] && a[0] == b[0] {
      assert a == [a[0]] + a[1..] && b == [b[0]] + b[1..];
      LessTotal(a[1..], b[1..]);
    }
  }

  /** Ascending with no repeated element. */
  predicate StrictlySorted(s: seq<string>) {
    forall i, j :: 0 <= i < j < |s| ==> Less(s[i], s[j])
  }

  lemma PrependSorted(x: string, s: seq<string>)
    requires StrictlySorted(s)
    requires forall y :: y in s ==> Less(x, y)
    ensures StrictlySorted([x] + s)
  {
    var r := [x] + s;
    forall i, j | 0 <= i < j < |r| ensures Less(r[i], r[j]) {
      if i == 0 {
        assert r[j] == s[j - 1] && r[j] in s;
      } else {
        assert r[i] == s[i - 1] && r[j] == s[j - 1];
      }
    }
  }

  lemma HeadLessThanRest(s: seq<string>)
    requires StrictlySorted(s) && s != []
    ensures forall y :: y in s[1..] ==> Less(s[0], y)
  {
    forall y | y in s[1..] ensures Less(s[0], y) {
      var i :| 0 <= i < |s| - 1 && s[1..][i] == y;
      assert s[i + 1] == y;
    }
  }

  lemma BelowHeadBelowAll(x: string, s: seq<string>)
    requires StrictlySorted(s) && s != [] && Less(x, s[0])
    ensures forall y :: y in s ==> Less(x, y)
  {
    forall y | y in s ensures Less(x, y) {
      if y != s[0] {
        HeadLessThanRest(s);
        assert y in s[1..] by {
          var i :| 0 <= i < |s| && s[i] == y;
          assert s[1..][i - 1] == y;
        }
        LessTransitive(x, s[0], y);
      }
    }
  }

  /** `x` put into its place in a strictly sorted list, unless it is already there. */
  function Insert(x: string, s: seq<string>): (r: seq<string>)
    requires StrictlySorted(s)
    ensures StrictlySorted(r)
    ensures forall y :: y in r <==> y == x || y in s
    ensures x in s ==> |r| == |s|
    ensures x !in s ==> |r| == |s| + 1
    decreases |s|
  {
    if s == [] then [x]
    else if x == s[0] then s
    else if Less(x, s[0]) then
      BelowHeadBelowAll(x, s);
      LessIrreflexive(x);
      PrependSorted(x, s);
      [x] + s
    else
      LessTotal(x, s[0]);
      HeadLessThanRest(s);
      var t := Insert(x, s[1..]);
      assert forall y :: y in s <==> y == s[0] || y in s[1..] by {
        assert s == [s[0]] + s[1..];
      }
      PrependSorted(s[0], t);
      [s[0]] + t
  }

  /** `Array.from(s).sort()`: the elements of a set as an ascending list without repeats. */
  method SortSet(s: set<string>) returns (r: seq<string>)
    ensures StrictlySorted(r)
    ensures forall y :: y in r <==> y in s
    ensures |r| == |s|
  {
    r := [];
    var rem := s;
    while rem != {}
      invariant rem <= s
      invariant StrictlySorted(r)
      invariant forall y :: y in r <==> y in s && y !in rem
      invariant |r| + |rem| == |s|
      decreases |rem|
    {
      var x :| x in rem;
      r := Insert(x, r);
      rem := rem - {x};
    }
  }

  lemma InTail(s: seq<string>, y: string)
    requires y in s && y != s[0]
    ensures y in s[1..]
  {
    var i :| 0 <= i < |s| && s[i] == y;
    assert s[1..][i - 1] == y;
  }

  /** A set has exactly one strictly sorted listing, so the order in which the crawler
      collected its links does not show in the output. */
  lemma {:induction false} SortedUnique(a: seq<string>, b: seq<string>)
    requires StrictlySorted(a) && StrictlySorted(b)
    requires forall y :: y in a <==> y in b
    ensures a == b
    decreases |a|
  {
    assert a != [] ==> a[0] in b;
    assert b != [] ==> b[0] in a;
    if a != [] && b != [] {
      HeadLessThanRest(a);
      HeadLessThanRest(b);
      LessIrreflexive(a[0]);
      LessIrreflexive(b[0]);
      assert a[0] == b[0] by {
        if a[0] != b[0] {
          InTail(b, a[0]);
          InTail(a, b[0]);
          LessTransitive(a[0], b[0], a[0]);
        }
      }
      forall y ensures y in a[1..] <==> y in b[1..] {
        if y in a[1..] {
          LessIrreflexive(y);
          InTail(b, y);
        }
        if y in b[1..] {
          LessIrreflexive(y);
          InTail(a, y);
        }
      }
      SortedUnique(a[1..], b[1..]);
      assert a == [a[0]] + a[1..] && b == [b[0]] + b[1..];
    }
  }
}
