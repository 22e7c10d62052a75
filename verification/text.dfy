/** Python string operations the pipeline relies on: `str.strip()`,
    `sep.join(xs)`, `s.split(c)` and the prefix slice `s[:n]`.
    Strings are sequences of Unicode code points, as in Python 3. */
module Text {

  /** The characters for which Python's `str.isspace()` holds; these are the
      characters `str.strip()` removes from both ends. */
  predicate IsSpace(c: char) {
    || c == ' '
    || ('\t' <= c <= '\r')
    || ('\U{1c}' <= c <= '\U{1f}')
    || c == '\U{85}' || c == '\U{a0}' || c == '\U{1680}'
    || ('\U{2000}' <= c <= '\U{200a}')
    || c == '\U{2028}' || c == '\U{2029}' || c == '\U{202f}'
    || c == '\U{205f}' || c == '\U{3000}'
  }

  predicate AllSpace(s: string) {
    forall i :: 0 <= i < |s| ==> IsSpace(s[i])
  }

  /** The string holds only whitespace (or nothing), so `s.strip()` is empty and falsy. */
  predicate IsBlank(s: string) {
    AllSpace(s)
  }

  /** `s.lstrip()`: the longest all-space prefix is removed. */
  function TrimStart(s: string): (r: string)
    ensures |r| <= |s| && r == s[|s| - |r|..]
    ensures AllSpace(s[..|s| - |r|])
    ensures r == [] || !IsSpace(r[0])
  {
    if |s| > 0 && IsSpace(s[0]) then
      var r := TrimStart(s[1..]);
      StripFrontStep(s, r);
      r
    else s
  }

  /** One more leading space dropped keeps `r` a suffix after spaces only. */
  lemma StripFrontStep(s: string, r: string)
    requires |s| > 0 && IsSpace(s[0])
    requires |r| <= |s| - 1 && r == s[1..][|s| - 1 - |r|..] && AllSpace(s[1..][..|s| - 1 - |r|])
    ensures r == s[|s| - |r|..] && AllSpace(s[..|s| - |r|])
  {
    var n := |s| - |r|;
    assert s[1..][n - 1..] == s[n..];
    forall k | 0 <= k < n ensures IsSpace(s[..n][k]) {
      if k > 0 { assert s[..n][k] == s[1..][..n - 1][k - 1]; }
    }
  }

  /** `s.rstrip()`: the longest all-space suffix is removed. */
  function TrimEnd(s: string): (r: string)
    ensures |r| <= |s| && r == s[..|r|]
    ensures AllSpace(s[|r|..])
    ensures r == [] || !IsSpace(r[|r| - 1])
  {
    if |s| > 0 && IsSpace(s[|s| - 1]) then
      var r := TrimEnd(s[..|s| - 1]);
      StripBackStep(s, r);
      r
    else s
  }

  /** One more trailing space dropped keeps `r` a prefix before spaces only. */
  lemma StripBackStep(s: string, r: string)
    requires |s| > 0 && IsSpace(s[|s| - 1])
    requires |r| <= |s| - 1 && r == s[..|s| - 1][..|r|] && AllSpace(s[..|s| - 1][|r|..])
    ensures r == s[..|r|] && AllSpace(s[|r|..])
  {
    var m := |r|;
    assert s[..|s| - 1][..m] == s[..m];
    forall k | 0 <= k < |s| - m ensures IsSpace(s[m..][k]) {
      if k < |s| - 1 - m { assert s[m..][k] == s[..|s| - 1][m..][k]; }
    }
  }

  /** A trimmed string has no space at either end. */
  predicate IsTrimmed(s: string) {
    s == [] || (!IsSpace(s[0]) && !IsSpace(s[|s| - 1]))
  }

  /** `s.strip()`: a contiguous piece of `s` with no space at either end, every
      dropped character being a space; it is empty exactly when `s` is blank. */
  function Trim(s: string): (r: string)
    ensures |r| <= |s|
    ensures IsTrimmed(r)
    ensures r == [] <==> IsBlank(s)
  {
    var a := TrimStart(s);
    var r := TrimEnd(a);
    TrimPieces(s, a, r);
    r
  }

  /** What `Trim` drops: a run of spaces at each end, nothing in between. */
  lemma TrimIsInfix(s: string)
    ensures var r := Trim(s);
      exists i :: 0 <= i <= |s| - |r| && r == s[i..i + |r|] && AllSpace(s[..i]) && AllSpace(s[i + |r|..])
  {
    TrimPieces(s, TrimStart(s), Trim(s));
  }

  /** The facts `Trim` promises, about the two one-sided strips it composes. */
  lemma TrimPieces(s: string, a: string, r: string)
    requires |a| <= |s| && a == s[|s| - |a|..] && AllSpace(s[..|s| - |a|]) && (a == [] || !IsSpace(a[0]))
    requires |r| <= |a| && r == a[..|r|] && AllSpace(a[|r|..])
    ensures var i := |s| - |a|;
      && 0 <= i <= |s| - |r| && r == s[i..i + |r|]
      && AllSpace(s[..i]) && AllSpace(s[i + |r|..])
    ensures r == [] <==> IsBlank(s)
  {
    var i := |s| - |a|;
    assert r == s[i..i + |r|];
    assert s[i + |r|..] == a[|r|..];
    if r == [] {
      assert a[|r|..] == a;
      assert a == [];
      assert s[..i] == s;
    } else {
      assert r[0] == a[0] == s[i];
      assert !IsSpace(s[i]);
    }
  }

  lemma TrimOfTrimmed(s: string)
    requires IsTrimmed(s)
    ensures Trim(s) == s
  {
    assert TrimStart(s) == s;
    assert TrimEnd(s) == s;
  }

  /** Stripping twice is stripping once. */
  lemma TrimIdempotent(s: string)
    ensures Trim(Trim(s)) == Trim(s)
  {
    TrimOfTrimmed(Trim(s));
  }

  /** `sep.join(xs)`. */
  function Join(sep: string, xs: seq<string>): (r: string)
    ensures |xs| == 0 ==> r == []
    ensures |xs| == 1 ==> r == xs[0]
    ensures |xs| > 0 ==> xs[0] <= r
  {
    if |xs| == 0 then []
    else if |xs| == 1 then xs[0]
    else xs[0] + sep + Join(sep, xs[1..])
  }

  /** `s.split(c)` for a one-character separator: the pieces between the
      occurrences of `c`, so there is always at least one piece. */
  function Split(s: string, c: char): (r: seq<string>)
    ensures |r| >= 1
    ensures forall k :: 0 <= k < |r| ==> c !in r[k]
    decreases |s|
  {
    if |s| == 0 then [[]]
    else if s[0] == c then [[]] + Split(s[1..], c)
    else
      var rest := Split(s[1..], c);
      [[s[0]] + rest[0]] + rest[1..]
  }

  /** A string without the separator splits into itself. */
  lemma {:induction false} SplitWithout(a: string, c: char)
    requires c !in a
    ensures Split(a, c) == [a]
    decreases |a|
  {
    if |a| > 0 {
      assert c !in a[1..] by {
        forall k | 0 <= k < |a[1..]| ensures a[1..][k] != c { assert a[1..][k] == a[k + 1]; }
      }
      SplitWithout(a[1..], c);
      assert a[0] != c;
      assert [a[0]] + a[1..] == a;
    }
  }

  /** Splitting `a + [c] + b` yields `a` followed by the pieces of `b`. */
  lemma {:induction false} SplitAt(a: string, c: char, b: string)
    requires c !in a
    ensures Split(a + [c] + b, c) == [a] + Split(b, c)
    decreases |a|
  {
    if |a| == 0 {
      assert a + [c] + b == [c] + b;
      assert ([c] + b)[1..] == b;
    } else {
      var s := a + [c] + b;
      assert s[0] == a[0];
      assert s[1..] == a[1..] + [c] + b;
      assert c !in a[1..] by {
        forall k | 0 <= k < |a[1..]| ensures a[1..][k] != c { assert a[1..][k] == a[k + 1]; }
      }
      SplitAt(a[1..], c, b);
      assert [a[0]] + a[1..] == a;
    }
  }

  /** Splitting on the separator undoes joining with it, provided no piece
      contains the separator and there is at least one piece. */
  lemma {:induction false} SplitJoin(xs: seq<string>, c: char)
    requires |xs| > 0
    requires forall k :: 0 <= k < |xs| ==> c !in xs[k]
    ensures Split(Join([c], xs), c) == xs
    decreases |xs|
  {
    if |xs| == 1 {
      SplitWithout(xs[0], c);
    } else {
      SplitJoin(xs[1..], c);
      SplitAt(xs[0], c, Join([c], xs[1..]));
      assert [xs[0]] + xs[1..] == xs;
    }
  }

  /** The pieces of every string in `xs`, in order: what splitting their
      join yields when pieces may themselves contain the separator. */
  function SplitEach(xs: seq<string>, c: char): (r: seq<string>)
    ensures |xs| > 0 ==> |r| >= |xs|
  {
    if |xs| == 0 then [] else Split(xs[0], c) + SplitEach(xs[1..], c)
  }

  /** Splitting `a + [c] + b` yields the pieces of `a`, then those of `b`. */
  lemma {:induction false} SplitConcat(a: string, c: char, b: string)
    ensures Split(a + [c] + b, c) == Split(a, c) + Split(b, c)
    decreases |a|
  {
    var s := a + [c] + b;
    if |a| == 0 {
      assert s == [c] + b;
      assert s[1..] == b;
      assert Split(s, c) == [[]] + Split(b, c);
    } else {
      assert s[0] == a[0];
      assert s[1..] == a[1..] + [c] + b;
      SplitConcat(a[1..], c, b);
      if a[0] == c {
        assert Split(s, c) == [[]] + Split(s[1..], c);
        assert Split(a, c) == [[]] + Split(a[1..], c);
      } else {
        SplitConsStep(a, c, Split(b, c), s);
      }
    }
  }

  /** The step of `SplitConcat` for a first character other than `c`. */
  lemma SplitConsStep(a: string, c: char, tail: seq<string>, s: string)
    requires |a| > 0 && a[0] != c && |s| > 0 && s[0] == a[0]
    requires Split(s[1..], c) == Split(a[1..], c) + tail
    ensures Split(s, c) == Split(a, c) + tail
  {
    SplitUnfold(s, c);
    SplitUnfold(a, c);
    ExtendFirst([a[0]], Split(a[1..], c), tail);
  }

  /** One step of `Split` on a string that does not start with `c`. */
  lemma SplitUnfold(s: string, c: char)
    requires |s| > 0 && s[0] != c
    ensures Split(s, c) == [[s[0]] + Split(s[1..], c)[0]] + Split(s[1..], c)[1..]
  {
  }

  /** Prefixing the first piece commutes with appending further pieces. */
  lemma ExtendFirst(h: string, ra: seq<string>, tail: seq<string>)
    requires |ra| > 0
    ensures [h + (ra + tail)[0]] + (ra + tail)[1..] == ([h + ra[0]] + ra[1..]) + tail
  {
    assert (ra + tail)[0] == ra[0];
    assert (ra + tail)[1..] == ra[1..] + tail;
  }

  /** Splitting a join on its separator gives the pieces of every joined
      string in order, whatever the strings contain. */
  lemma {:induction false} SplitJoinEach(xs: seq<string>, c: char)
    requires |xs| > 0
    ensures Split(Join([c], xs), c) == SplitEach(xs, c)
    decreases |xs|
  {
    if |xs| == 1 {
      assert SplitEach(xs[1..], c) == [];
      assert Split(xs[0], c) + [] == Split(xs[0], c);
    } else {
      SplitJoinEach(xs[1..], c);
      SplitConcat(xs[0], c, Join([c], xs[1..]));
    }
  }

  /** Joining the pieces of `s` gives `s` back, so `Split` loses nothing. */
  lemma {:induction false} JoinSplit(s: string, c: char)
    ensures Join([c], Split(s, c)) == s
    decreases |s|
  {
    if |s| > 0 {
      var rest := Split(s[1..], c);
      JoinSplit(s[1..], c);
      if s[0] == c {
        assert Split(s, c) == [[]] + rest;
        assert ([[]] + rest)[1..] == rest;
        assert [c] + s[1..] == s;
      } else {
        var r := Split(s, c);
        assert r[0] == [s[0]] + rest[0];
        assert r[1..] == rest[1..];
        if |rest| == 1 {
          assert Join([c], r) == [s[0]] + rest[0];
        } else {
          assert Join([c], rest) == rest[0] + [c] + Join([c], rest[1..]);
        }
        assert [s[0]] + s[1..] == s;
      }
    }
  }

  /** Strings with the same pieces are equal. */
  lemma SplitInjective(s: string, t: string, c: char)
    requires Split(s, c) == Split(t, c)
    ensures s == t
  {
    JoinSplit(s, c);
    JoinSplit(t, c);
  }

  /** Python's `s[:n]` for `n >= 0`: the first `min(n, |s|)` characters. */
  function Truncate(s: string, n: nat): (r: string)
    ensures |r| <= n && |r| <= |s|
    ensures r == s[..|r|]
    ensures |s| <= n ==> r == s
    ensures |s| > n ==> |r| == n
  {
    if |s| <= n then s else s[..n]
  }
}
