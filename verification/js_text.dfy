/** The JavaScript string operations the core relies on: `trim`, ASCII case
    mapping, `Array.prototype.join`, and `substring(0, n)`. `Split` is not used
    by the program; it is the inverse that pins down what `Join` produces. */
module JsText {
  import opened Basics

  /** ECMAScript WhiteSpace and LineTerminator code points, the set `trim` strips. */
  predicate IsSpace(c: char)
  {
    || c == '\t' || c == '\n' || c == '\U{000B}' || c == '\U{000C}' || c == '\r'
    || c == ' ' || c == '\U{00A0}' || c == '\U{1680}'
    || ('\U{2000}' <= c <= '\U{200A}')
    || c == '\U{2028}' || c == '\U{2029}' || c == '\U{202F}' || c == '\U{205F}'
    || c == '\U{3000}' || c == '\U{FEFF}'
  }

  /** Every character of `s` is white space (vacuously true of ""). */
  predicate AllSpace(s: string)
  {
    forall i :: 0 <= i < |s| ==> IsSpace(s[i])
  }

  /** Drops leading white space; the result is a suffix of `s`. */
  function TrimStart(s: string): (r: string)
    ensures |r| <= |s| && r == s[|s| - |r|..]
    ensures AllSpace(s[..|s| - |r|])
    ensures |r| > 0 ==> !IsSpace(r[0])
  {
    if |s| > 0 && IsSpace(s[0]) then TrimStart(s[1..]) else s
  }

  /** Drops trailing white space; the result is a prefix of `s`. */
  function TrimEnd(s: string): (r: string)
    ensures |r| <= |s| && r == s[..|r|]
    ensures AllSpace(s[|r|..])
    ensures |r| > 0 ==> !IsSpace(r[|r| - 1])
  {
    if |s| > 0 && IsSpace(s[|s| - 1]) then TrimEnd(s[..|s| - 1]) else s
  }

  /** `r` occurs in `s` starting at index `i`. */
  predicate SliceAt(s: string, i: int, r: string)
  {
    0 <= i <= |s| - |r| && s[i..i + |r|] == r
  }

  /** `r` is what is left of `s` when white space, and nothing else, is cut
      from its front up to index `i` and from its end. */
  predicate StrippedAt(s: string, i: int, r: string)
  {
    SliceAt(s, i, r) && AllSpace(s[..i]) && AllSpace(s[i + |r|..])
  }

  /** `String.prototype.trim`: the contiguous middle of `s` left after stripping
      white space from both ends. It is empty exactly when `s` is all white space. */
  function Trim(s: string): (r: string)
    ensures exists i :: StrippedAt(s, i, r)
    ensures r == "" <==> AllSpace(s)
    ensures r != "" ==> !IsSpace(r[0]) && !IsSpace(r[|r| - 1])
  {
    var e := TrimEnd(s);
    var r := TrimStart(e);
    assert SliceAt(s, |e| - |r|, r);
    assert s[..|e| - |r|] == e[..|e| - |r|];
    assert s[|e| - |r| + |r|..] == s[|e|..];
    assert StrippedAt(s, |e| - |r|, r);
    EmptyTrimIsAllSpace(s, e, r);
    r
  }

  /** `Trim` is the only way to strip white space from both ends that leaves
      no white space at either end of what remains. */
  lemma TrimUnique(s: string, i: int, r: string)
    requires StrippedAt(s, i, r)
    requires r != "" ==> !IsSpace(r[0]) && !IsSpace(r[|r| - 1])
    ensures r == Trim(s)
  {
    var t := Trim(s);
    var j :| StrippedAt(s, j, t);
    SpacePrefix(s, i);
    SpaceSuffix(s, i + |r|);
    if r != "" {
      SpacePrefix(s, j);
      SpaceSuffix(s, j + |t|);
      assert s[i] == r[0] && s[i + |r| - 1] == r[|r| - 1];
      assert t != "";
      assert s[j] == t[0] && s[j + |t| - 1] == t[|t| - 1];
    }
  }

  /** Every character before index `j` is white space. */
  lemma SpacePrefix(s: string, j: int)
    requires 0 <= j <= |s| && AllSpace(s[..j])
    ensures forall k :: 0 <= k < j ==> IsSpace(s[k])
  {
    forall k | 0 <= k < j
      ensures IsSpace(s[k])
    {
      assert s[..j][k] == s[k];
    }
  }

  /** Every character from index `j` on is white space. */
  lemma SpaceSuffix(s: string, j: int)
    requires 0 <= j <= |s| && AllSpace(s[j..])
    ensures forall k :: j <= k < |s| ==> IsSpace(s[k])
  {
    forall k | j <= k < |s|
      ensures IsSpace(s[k])
    {
      assert s[j..][k - j] == s[k];
    }
  }

  lemma EmptyTrimIsAllSpace(s: string, e: string, r: string)
    requires |e| <= |s| && e == s[..|e|] && AllSpace(s[|e|..])
    requires |r| <= |e| && AllSpace(e[..|e| - |r|])
    ensures r == "" ==> AllSpace(s)
  {
    if r == "" {
      forall i | 0 <= i < |s|
        ensures IsSpace(s[i])
      {
        if i < |e| {
          assert s[i] == e[..|e|][i];
        } else {
          assert s[i] == s[|e|..][i - |e|];
        }
      }
    }
  }

  /** The ASCII part of `toLowerCase`. */
  function LowerChar(c: char): char
  {
    if 'A' <= c <= 'Z' then (c as int + 32) as char else c
  }

  /** The ASCII part of `toUpperCase`. */
  function UpperChar(c: char): char
  {
    if 'a' <= c <= 'z' then (c as int - 32) as char else c
  }

  function Lower(s: string): (r: string)
    ensures |r| == |s|
  {
    seq(|s|, i requires 0 <= i < |s| => LowerChar(s[i]))
  }

  function Upper(s: string): (r: string)
    ensures |r| == |s|
  {
    seq(|s|, i requires 0 <= i < |s| => UpperChar(s[i]))
  }

  /** Lower-casing ignores whatever case the input was in. */
  lemma LowerForgetsCase(s: string)
    ensures Lower(Upper(s)) == Lower(s)
    ensures Lower(Lower(s)) == Lower(s)
  {
  }

  /** `xs.join(sep)`: the elements in order with `sep` between neighbours;
      the empty list joins to "". */
  function Join(sep: string, xs: seq<string>): string
  {
    if |xs| == 0 then ""
    else if |xs| == 1 then xs[0]
    else xs[0] + sep + Join(sep, xs[1..])
  }

  /** Where element `i` starts inside `Join(sep, xs)`. */
  function Offset(sep: string, xs: seq<string>, i: nat): nat
    requires i <= |xs|
  {
    if i == 0 then 0 else Offset(sep, xs, i - 1) + |xs[i - 1]| + |sep|
  }

  lemma {:induction false} OffsetOfTail(sep: string, xs: seq<string>, i: nat)
    requires 0 < i <= |xs|
    ensures Offset(sep, xs, i) == |xs[0]| + |sep| + Offset(sep, xs[1..], i - 1)
  {
    if i > 1 {
      OffsetOfTail(sep, xs, i - 1);
    }
  }

  lemma SliceOfConcat(a: string, b: string, lo: nat, hi: nat)
    requires lo <= hi <= |b|
    ensures (a + b)[|a| + lo..|a| + hi] == b[lo..hi]
  {
  }

  /** Element `i` of the list sits, unchanged, at `Offset(sep, xs, i)` in the joined text. */
  lemma {:induction false} JoinElement(sep: string, xs: seq<string>, i: nat)
    requires i < |xs|
    ensures Offset(sep, xs, i) + |xs[i]| <= |Join(sep, xs)|
    ensures Join(sep, xs)[Offset(sep, xs, i)..Offset(sep, xs, i) + |xs[i]|] == xs[i]
  {
    var j := Join(sep, xs);
    if i == 0 {
      if |xs| > 1 {
        assert j == xs[0] + (sep + Join(sep, xs[1..]));
      }
    } else {
      var rest := Join(sep, xs[1..]);
      assert j == (xs[0] + sep) + rest;
      JoinElement(sep, xs[1..], i - 1);
      OffsetOfTail(sep, xs, i);
      var o := Offset(sep, xs[1..], i - 1);
      SliceOfConcat(xs[0] + sep, rest, o, o + |xs[i]|);
    }
  }

  /** Between element `i` and element `i + 1` of the joined text lies exactly `sep`. */
  lemma {:induction false} JoinSeparator(sep: string, xs: seq<string>, i: nat)
    requires i + 1 < |xs|
    ensures Offset(sep, xs, i + 1) <= |Join(sep, xs)|
    ensures Join(sep, xs)[Offset(sep, xs, i) + |xs[i]|..Offset(sep, xs, i + 1)] == sep
  {
    var j := Join(sep, xs);
    var rest := Join(sep, xs[1..]);
    assert j == (xs[0] + sep) + rest;
    if i == 0 {
      assert j == xs[0] + (sep + rest);
      SliceOfConcat(xs[0], sep + rest, 0, |sep|);
    } else {
      JoinSeparator(sep, xs[1..], i - 1);
      OffsetOfTail(sep, xs, i);
      OffsetOfTail(sep, xs, i + 1);
      var o := Offset(sep, xs[1..], i - 1) + |xs[i]|;
      SliceOfConcat(xs[0] + sep, rest, o, Offset(sep, xs[1..], i));
    }
  }

  /** The joined text ends with the last element: nothing follows it. */
  lemma {:induction false} JoinLength(sep: string, xs: seq<string>)
    requires |xs| > 0
    ensures |Join(sep, xs)| == Offset(sep, xs, |xs| - 1) + |xs[|xs| - 1]|
  {
    if |xs| > 1 {
      JoinLength(sep, xs[1..]);
      OffsetOfTail(sep, xs, |xs| - 1);
    }
  }

  /** Cuts `s` at every occurrence of `c`; the inverse of joining with `[c]`. */
  function Split(c: char, s: string): (r: seq<string>)
    ensures |r| >= 1
    decreases |s|
  {
    if |s| == 0 then [""]
    else if s[0] == c then [""] + Split(c, s[1..])
    else
      var rest := Split(c, s[1..]);
      [[s[0]] + rest[0]] + rest[1..]
  }

  lemma {:induction false} SplitPrefix(c: char, a: string, b: string)
    requires c !in a
    ensures Split(c, a + [c] + b) == [a] + Split(c, b)
    ensures Split(c, a) == [a]
    decreases |a|
  {
    if |a| == 0 {
      assert a + [c] + b == [c] + b;
      assert ([c] + b)[1..] == b;
    } else {
      assert (a + [c] + b)[0] == a[0];
      assert (a + [c] + b)[1..] == a[1..] + [c] + b;
      SplitPrefix(c, a[1..], b);
      assert [a[0]] + a[1..] == a;
    }
  }

  /** Joining with a one-character separator loses nothing when no element
      contains that character and the list is non-empty (the empty list and the
      list holding one empty string both join to ""). */
  lemma {:induction false} SplitJoin(c: char, xs: seq<string>)
    requires |xs| > 0
    requires forall i :: 0 <= i < |xs| ==> c !in xs[i]
    ensures Split(c, Join([c], xs)) == xs
  {
    if |xs| == 1 {
      SplitPrefix(c, xs[0], "");
    } else {
      SplitJoin(c, xs[1..]);
      SplitPrefix(c, xs[0], Join([c], xs[1..]));
      assert [xs[0]] + xs[1..] == xs;
    }
  }

  /** Splitting then joining gives back any string. */
  lemma {:induction false} JoinSplit(c: char, s: string)
    ensures Join([c], Split(c, s)) == s
    decreases |s|
  {
    if |s| == 0 {
    } else if s[0] == c {
      JoinSplit(c, s[1..]);
      assert [s[0]] + s[1..] == s;
    } else {
      var rest := Split(c, s[1..]);
      JoinSplit(c, s[1..]);
      var r := [[s[0]] + rest[0]] + rest[1..];
      assert r[1..] == rest[1..];
      if |rest| == 1 {
        assert Join([c], rest) == rest[0];
      } else {
        assert Join([c], rest) == rest[0] + [c] + Join([c], rest[1..]);
      }
      assert [s[0]] + s[1..] == s;
    }
  }

  /** `s.substring(0, n)` for `n >= 0`: at most the first `n` characters. */
  function Truncate(s: string, n: nat): (r: string)
    ensures |r| == Min(|s|, n)
    ensures r == s[..|r|]
    ensures |s| <= n ==> r == s
  {
    if |s| <= n then s else s[..n]
  }
}
