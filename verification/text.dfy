/**
 * The Python string operations the core relies on, over `seq<char>`:
 * ASCII `lower`, `startswith`, `endswith`, `replace(old, "")`,
 * `replace(c, "", 1)` and `strip()`.
 */
module Text {

  /** `b` contains the elements of `a` in order, possibly with others between them. */
  predicate IsSubseq<T(==)>(a: seq<T>, b: seq<T>)
    decreases |b|
  {
    if |a| == 0 then true
    else if |b| == 0 then false
    else (a[0] == b[0] && IsSubseq(a[1..], b[1..])) || IsSubseq(a, b[1..])
  }

  lemma {:induction false} SubseqOfSuffix<T>(a: seq<T>, b: seq<T>, k: nat)
    requires k <= |b|
    requires IsSubseq(a, b[k..])
    ensures IsSubseq(a, b)
    decreases k
  {
    if k > 0 {
      assert b[k - 1..][1..] == b[k..];
      SubseqOfSuffix(a, b, k - 1);
    }
  }

  lemma {:induction false} SubseqRefl<T>(a: seq<T>)
    ensures IsSubseq(a, a)
    decreases |a|
  {
    if |a| > 0 {
      SubseqRefl(a[1..]);
    }
  }

  lemma {:induction false} SubseqTrans<T>(a: seq<T>, b: seq<T>, c: seq<T>)
    requires IsSubseq(a, b) && IsSubseq(b, c)
    ensures IsSubseq(a, c)
    decreases |c|
  {
    if |a| > 0 {
      if IsSubseq(b, c[1..]) {
        SubseqTrans(a, b, c[1..]);
      } else if a[0] == b[0] && IsSubseq(a[1..], b[1..]) {
        SubseqTrans(a[1..], b[1..], c[1..]);
      } else {
        SubseqTrans(a, b[1..], c[1..]);
      }
    }
  }

  /** No element occurs twice. */
  predicate Distinct<T(==)>(s: seq<T>) {
    forall i, j :: 0 <= i < j < |s| ==> s[i] != s[j]
  }

  lemma {:induction false} SubseqElements<T>(a: seq<T>, b: seq<T>)
    requires IsSubseq(a, b)
    ensures forall x :: x in a ==> x in b
    decreases |b|
  {
    if |a| > 0 {
      if a[0] == b[0] && IsSubseq(a[1..], b[1..]) {
        SubseqElements(a[1..], b[1..]);
        assert forall x :: x in a ==> x == a[0] || x in a[1..];
      } else {
        SubseqElements(a, b[1..]);
      }
    }
  }

  /** A subsequence of a sequence without repeats has no repeats. */
  lemma {:induction false} SubseqOfDistinct<T>(a: seq<T>, b: seq<T>)
    requires IsSubseq(a, b) && Distinct(b)
    ensures Distinct(a)
    decreases |b|
  {
    if |a| > 0 {
      assert Distinct(b[1..]) by {
        forall i, j | 0 <= i < j < |b[1..]|
          ensures b[1..][i] != b[1..][j]
        {
          assert b[1..][i] == b[i + 1] && b[1..][j] == b[j + 1];
        }
      }
      if a[0] == b[0] && IsSubseq(a[1..], b[1..]) {
        SubseqOfDistinct(a[1..], b[1..]);
        SubseqElements(a[1..], b[1..]);
        forall i, j | 0 <= i < j < |a|
          ensures a[i] != a[j]
        {
          if i == 0 {
            assert a[j] == a[1..][j - 1];
            assert a[j] in b[1..];
            assert b[0] !in b[1..] by {
              forall k | 0 <= k < |b[1..]|
                ensures b[1..][k] != b[0]
              {
                assert b[1..][k] == b[k + 1];
              }
            }
          } else {
            assert a[i] == a[1..][i - 1] && a[j] == a[1..][j - 1];
          }
        }
      } else {
        SubseqOfDistinct(a, b[1..]);
      }
    }
  }

  lemma SeparatorFixesLength(a: string, d1: string, b: string, d2: string, sep: char)
    requires a + [sep] + d1 == b + [sep] + d2
    ensures |d1| < |d2| ==> d2[|d2| - 1 - |d1|] == sep
  {
    var x := a + [sep] + d1;
    assert x[|x| - 1 - |d1|] == sep;
    assert |d1| < |d2| ==> x[|x| - 1 - |d1|] == d2[|d2| - 1 - |d1|];
  }

  /** Splitting at the last separator: a suffix free of `sep` is determined. */
  lemma SplitAtLastSeparator(a: string, d1: string, b: string, d2: string, sep: char)
    requires a + [sep] + d1 == b + [sep] + d2
    requires sep !in d1 && sep !in d2
    ensures a == b && d1 == d2
  {
    var x := a + [sep] + d1;
    SeparatorFixesLength(a, d1, b, d2, sep);
    SeparatorFixesLength(b, d2, a, d1, sep);
    assert d1 == x[|x| - |d1|..] == d2;
    assert a == x[..|a|] == b;
  }

  predicate StartsWith(s: string, prefix: string) {
    |prefix| <= |s| && s[..|prefix|] == prefix
  }

  lemma StartsWithTrans(s: string, p: string, q: string)
    requires StartsWith(s, p) && StartsWith(p, q)
    ensures StartsWith(s, q)
  {
    assert s[..|q|] == s[..|p|][..|q|];
  }

  lemma StartsWithPrepend(w: string, s: string, p: string)
    requires StartsWith(s, p)
    ensures StartsWith(w + s, w + p)
  {
    assert (w + s)[..|w + p|] == w + s[..|p|];
  }

  /** Two prefixes of one string agree on their common length. */
  lemma CommonPrefix(s: string, a: string, p: string)
    requires StartsWith(s, a) && StartsWith(s, p) && |p| <= |a|
    ensures StartsWith(a, p)
  {
    assert a[..|p|] == s[..|a|][..|p|];
  }

  lemma LowerOfExtension(s: string, p: string)
    requires StartsWith(s, p)
    ensures StartsWith(Lower(s), Lower(p))
  {
    assert s == p + s[|p|..];
    LowerAppend(p, s[|p|..]);
  }

  predicate EndsWith(s: string, suffix: string) {
    |suffix| <= |s| && s[|s| - |suffix|..] == suffix
  }

  /** `pat` occurs somewhere in `s`. */
  predicate Occurs(s: string, pat: string)
    decreases |s|
  {
    StartsWith(s, pat) || (|s| > 0 && Occurs(s[1..], pat))
  }

  /** A pattern does not occur in shorter text. */
  lemma {:induction false} ShorterNotOccurs(s: string, pat: string)
    requires |s| < |pat|
    ensures !Occurs(s, pat)
    decreases |s|
  {
    if |s| > 0 {
      ShorterNotOccurs(s[1..], pat);
    }
  }

  predicate IsUpper(c: char) {
    'A' <= c <= 'Z'
  }

  function LowerChar(c: char): char {
    if IsUpper(c) then (c as int + 32) as char else c
  }

  /** `str.lower()` restricted to ASCII: every other character is left alone. */
  function Lower(s: string): (r: string)
    ensures |r| == |s|
    ensures forall i :: 0 <= i < |r| ==> !IsUpper(r[i])
    ensures forall i :: 0 <= i < |s| && !IsUpper(s[i]) ==> r[i] == s[i]
    ensures forall i :: 0 <= i < |s| && IsUpper(s[i]) ==> r[i] as int == s[i] as int + 32
  {
    seq(|s|, i requires 0 <= i < |s| => LowerChar(s[i]))
  }

  /** `s.replace(pat, "")`: every non-overlapping occurrence, scanned left to right. */
  function RemoveAll(s: string, pat: string): string
    requires |pat| > 0
    decreases |s|
  {
    if |s| < |pat| then s
    else if s[..|pat|] == pat then RemoveAll(s[|pat|..], pat)
    else [s[0]] + RemoveAll(s[1..], pat)
  }

  /** Removing a pattern only deletes characters. */
  lemma {:induction false} RemoveAllShrinks(s: string, pat: string)
    requires |pat| > 0
    ensures multiset(RemoveAll(s, pat)) <= multiset(s)
    decreases |s|
  {
    if |s| >= |pat| {
      if s[..|pat|] == pat {
        RemoveAllShrinks(s[|pat|..], pat);
        assert s == s[..|pat|] + s[|pat|..];
      } else {
        RemoveAllShrinks(s[1..], pat);
        assert s == [s[0]] + s[1..];
      }
    }
  }

  /** What is left after removing a pattern is a subsequence of the input. */
  lemma {:induction false} RemoveAllIsSubseq(s: string, pat: string)
    requires |pat| > 0
    ensures IsSubseq(RemoveAll(s, pat), s)
    decreases |s|
  {
    if |s| < |pat| {
      SubseqRefl(s);
    } else if s[..|pat|] == pat {
      RemoveAllIsSubseq(s[|pat|..], pat);
      SubseqOfSuffix(RemoveAll(s, pat), s, |pat|);
    } else {
      RemoveAllIsSubseq(s[1..], pat);
    }
  }

  /** A character outside the pattern keeps its count. */
  lemma {:induction false} RemoveAllKeepsOthers(s: string, pat: string, c: char)
    requires |pat| > 0 && c !in pat
    ensures multiset(RemoveAll(s, pat))[c] == multiset(s)[c]
    decreases |s|
  {
    if |s| >= |pat| {
      if s[..|pat|] == pat {
        RemoveAllKeepsOthers(s[|pat|..], pat, c);
        assert s == s[..|pat|] + s[|pat|..];
      } else {
        RemoveAllKeepsOthers(s[1..], pat, c);
        assert s == [s[0]] + s[1..];
      }
    }
  }

  /** A pattern that does not occur leaves the string unchanged. */
  lemma {:induction false} RemoveAllAbsent(s: string, pat: string)
    requires |pat| > 0 && !Occurs(s, pat)
    ensures RemoveAll(s, pat) == s
    decreases |s|
  {
    if |s| >= |pat| {
      RemoveAllAbsent(s[1..], pat);
      assert s == [s[0]] + s[1..];
    }
  }

  /** `s` with every `c` deleted, the rest in order. */
  function Without(s: string, c: char): string
    decreases |s|
  {
    if |s| == 0 then []
    else if s[0] == c then Without(s[1..], c)
    else [s[0]] + Without(s[1..], c)
  }

  /** For a one-character pattern, `replace(c, "")` is exactly the filter `Without`. */
  lemma {:induction false} RemoveAllCharIsWithout(s: string, c: char)
    ensures RemoveAll(s, [c]) == Without(s, c)
    decreases |s|
  {
    if |s| > 0 {
      RemoveAllCharIsWithout(s[1..], c);
      if s[0] == c {
        assert s[..1] == [c];
        assert RemoveAll(s, [c]) == RemoveAll(s[1..], [c]);
      } else {
        assert s[..1] != [c];
        assert RemoveAll(s, [c]) == [s[0]] + RemoveAll(s[1..], [c]);
      }
    }
  }

  lemma {:induction false} WithoutAbsent(s: string, c: char)
    requires c !in s
    ensures Without(s, c) == s
    decreases |s|
  {
    if |s| > 0 {
      WithoutAbsent(s[1..], c);
      assert s == [s[0]] + s[1..];
    }
  }

  lemma {:induction false} WithoutAppend(a: string, b: string, c: char)
    ensures Without(a + b, c) == Without(a, c) + Without(b, c)
    decreases |a|
  {
    if |a| > 0 {
      WithoutAppend(a[1..], b, c);
      assert (a + b)[1..] == a[1..] + b;
    } else {
      assert a + b == b;
    }
  }

  lemma LowerAppend(a: string, b: string)
    ensures Lower(a + b) == Lower(a) + Lower(b)
  {
  }

  /** Removing the first `c` from a longer string keeps the removal from its prefix as a prefix. */
  lemma {:induction false} RemoveFirstOfExtension(a: string, b: string, c: char)
    ensures StartsWith(RemoveFirst(a + b, c), RemoveFirst(a, c))
    decreases |a|
  {
    if |a| > 0 {
      assert (a + b)[1..] == a[1..] + b;
      if a[0] != c {
        RemoveFirstOfExtension(a[1..], b, c);
      }
    } else {
      assert RemoveFirst(a, c) == [];
    }
  }

  /** No proper suffix of `w` is also a prefix of it, so occurrences never overlap. */
  predicate Unbordered(w: string) {
    forall k :: 0 < k < |w| ==> w[k..] != w[..|w| - k]
  }

  /**
   * An occurrence of an unbordered pattern after text free of it is removed,
   * the text before it is kept, and removal carries on after it.
   */
  lemma {:induction false} RemoveAllOfIsolated(a: string, w: string, b: string)
    requires |w| > 0 && Unbordered(w) && !Occurs(a, w)
    ensures RemoveAll(a + w + b, w) == a + RemoveAll(b, w)
    decreases |a|
  {
    var s := a + w + b;
    if |a| == 0 {
      assert s == w + b;
      assert s[..|w|] == w && s[|w|..] == b;
    } else {
      NotAtStart(a, w, b);
      assert s[1..] == a[1..] + w + b;
      RemoveAllOfIsolated(a[1..], w, b);
      assert a + RemoveAll(b, w) == [a[0]] + (a[1..] + RemoveAll(b, w));
    }
  }

  /** Text that starts before an unbordered pattern and is free of it does not start with it. */
  lemma NotAtStart(a: string, w: string, b: string)
    requires |w| > 0 && |a| > 0 && Unbordered(w) && !Occurs(a, w)
    ensures (a + w + b)[..|w|] != w
  {
    var s := a + w + b;
    if |a| >= |w| {
      assert s[..|w|] == a[..|w|];
      assert !StartsWith(a, w);
    } else {
      assert w[|a|..] != w[..|w| - |a|];
      assert s[..|w|][|a|..] == s[|a|..|w|] == w[..|w| - |a|];
    }
  }

  /** Removing a one-character pattern deletes exactly that character, everywhere. */
  lemma {:induction false} RemoveAllChar(s: string, c: char)
    ensures c !in RemoveAll(s, [c])
    ensures multiset(RemoveAll(s, [c])) == multiset(s)[c := 0]
    decreases |s|
  {
    if |s| > 0 {
      RemoveAllChar(s[1..], c);
      assert s == [s[0]] + s[1..];
      if s[0] == c {
        assert s[..1] == [c];
      } else {
        assert s[..1] != [c];
      }
    }
  }

  /** Position of the first `c` in `s`. */
  function IndexOf(s: string, c: char): (k: nat)
    requires c in s
    ensures k < |s| && s[k] == c && c !in s[..k]
  {
    if s[0] == c then 0 else 1 + IndexOf(s[1..], c)
  }

  /** `s.replace(c, "", 1)`: only the first `c`, wherever it is. */
  function RemoveFirst(s: string, c: char): string
    decreases |s|
  {
    if |s| == 0 then s
    else if s[0] == c then s[1..]
    else [s[0]] + RemoveFirst(s[1..], c)
  }

  /** Without a `c` nothing changes. */
  lemma {:induction false} RemoveFirstAbsent(s: string, c: char)
    requires c !in s
    ensures RemoveFirst(s, c) == s
    decreases |s|
  {
    if |s| > 0 {
      RemoveFirstAbsent(s[1..], c);
      assert s == [s[0]] + s[1..];
    }
  }

  /** With a `c`, the string closes over its first `c`. */
  lemma {:induction false} RemoveFirstAt(s: string, c: char)
    requires c in s
    ensures RemoveFirst(s, c) == s[..IndexOf(s, c)] + s[IndexOf(s, c) + 1..]
    decreases |s|
  {
    if s[0] == c {
      assert s[..0] + s[1..] == s[1..];
    } else {
      var t := s[1..];
      assert c in t;
      RemoveFirstAt(t, c);
      var k := IndexOf(t, c);
      assert IndexOf(s, c) == k + 1;
      ConsCloses(s, k);
    }
  }

  lemma ConsCloses(s: string, k: nat)
    requires k + 1 < |s|
    ensures [s[0]] + (s[1..][..k] + s[1..][k + 1..]) == s[..k + 1] + s[k + 2..]
  {
    assert s[..k + 1] == [s[0]] + s[1..][..k];
    assert s[k + 2..] == s[1..][k + 1..];
  }

  /** Removing the first `c` takes away exactly one `c`, when there is one. */
  lemma RemoveFirstCount(s: string, c: char)
    ensures forall x :: multiset(RemoveFirst(s, c))[x] ==
                        if x == c && multiset(s)[x] > 0 then multiset(s)[x] - 1 else multiset(s)[x]
  {
    if c in s {
      RemoveFirstAt(s, c);
      var k := IndexOf(s, c);
      assert s == s[..k] + [c] + s[k + 1..];
      assert multiset(s) == multiset(s[..k]) + multiset{c} + multiset(s[k + 1..]);
    } else {
      RemoveFirstAbsent(s, c);
      assert multiset(s)[c] == 0;
    }
  }

  /** The characters Python's `str.isspace()` accepts, which `str.strip()` removes. */
  predicate IsSpace(c: char) {
    || c == ' ' || c == '\t' || c == '\n' || c == '\r'
    || c == '\U{0B}' || c == '\U{0C}'
    || '\U{1C}' <= c <= '\U{1F}'
    || c == '\U{85}' || c == '\U{A0}' || c == '\U{1680}'
    || '\U{2000}' <= c <= '\U{200A}'
    || c == '\U{2028}' || c == '\U{2029}' || c == '\U{202F}' || c == '\U{205F}'
    || c == '\U{3000}'
  }

  /** `str.lstrip()`: the suffix left after dropping leading whitespace. */
  function StripStart(s: string): (r: string)
    ensures |r| <= |s| && r == s[|s| - |r|..]
    ensures forall i :: 0 <= i < |s| - |r| ==> IsSpace(s[i])
    ensures |r| > 0 ==> !IsSpace(r[0])
    decreases |s|
  {
    if |s| > 0 && IsSpace(s[0]) then StripStart(s[1..]) else s
  }

  /** `str.rstrip()`: the prefix left after dropping trailing whitespace. */
  function StripEnd(s: string): (r: string)
    ensures |r| <= |s| && r == s[..|r|]
    ensures forall i :: |r| <= i < |s| ==> IsSpace(s[i])
    ensures |r| > 0 ==> !IsSpace(r[|r| - 1])
    decreases |s|
  {
    if |s| > 0 && IsSpace(s[|s| - 1]) then StripEnd(s[..|s| - 1]) else s
  }

  /** `str.strip()`. */
  function Strip(s: string): string {
    StripEnd(StripStart(s))
  }

  /**
   * `strip()` keeps one contiguous slice of the input, drops only whitespace
   * around it, and the slice neither starts nor ends with whitespace.
   */
  lemma StripIsTrimmedSlice(s: string)
    ensures exists i, j ::
      && 0 <= i <= j <= |s| && Strip(s) == s[i..j]
      && (forall k :: 0 <= k < i ==> IsSpace(s[k]))
      && (forall k :: j <= k < |s| ==> IsSpace(s[k]))
    ensures |Strip(s)| > 0 ==> !IsSpace(Strip(s)[0]) && !IsSpace(Strip(s)[|Strip(s)| - 1])
  {
    StripIsSlice(s);
    StripIsTrimmed(s);
  }

  lemma StripIsSlice(s: string)
    ensures exists i, j ::
      && 0 <= i <= j <= |s| && Strip(s) == s[i..j]
      && (forall k :: 0 <= k < i ==> IsSpace(s[k]))
      && (forall k :: j <= k < |s| ==> IsSpace(s[k]))
  {
    var t := StripStart(s);
    var r := StripEnd(t);
    var i := |s| - |t|;
    var j := i + |r|;
    SliceOfSuffix(s, t, r);
    assert Strip(s) == s[i..j];
  }

  lemma StripIsTrimmed(s: string)
    ensures |Strip(s)| > 0 ==> !IsSpace(Strip(s)[0]) && !IsSpace(Strip(s)[|Strip(s)| - 1])
  {
    var t := StripStart(s);
    var r := StripEnd(t);
    assert |r| > 0 ==> r[0] == t[0];
  }

  /** A prefix `r` of a suffix `t` of `s` is a slice of `s`, and what follows `r` in `t` follows it in `s`. */
  lemma SliceOfSuffix(s: string, t: string, r: string)
    requires |t| <= |s| && t == s[|s| - |t|..]
    requires |r| <= |t| && r == t[..|r|]
    requires forall k :: |r| <= k < |t| ==> IsSpace(t[k])
    ensures s[|s| - |t|..|s| - |t| + |r|] == r
    ensures forall k :: |s| - |t| + |r| <= k < |s| ==> IsSpace(s[k])
  {
    var i := |s| - |t|;
    forall k | i + |r| <= k < |s|
      ensures IsSpace(s[k])
    {
      assert s[k] == t[k - i];
    }
  }
}
