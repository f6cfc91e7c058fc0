/**
 The two pieces of JavaScript string semantics the validators rely on:
 `String.prototype.trim` (ECMA-262, section 22.1.3.32, via TrimString) and the
 `length` property, which counts UTF-16 code units.

 A JavaScript string is modelled as a Dafny `string`, a sequence of Unicode
 scalar values.
 */
module JsString {

  /** WhiteSpace (ECMA-262 section 12.2) or LineTerminator (section 12.3):
      TAB, VT, FF, ZWNBSP, every code point of general category Zs, and
      LF, CR, LS, PS. */
  predicate IsWhiteSpace(c: char) {
    || c == '\t' || c == '\U{B}' || c == '\U{C}' || c == '\U{FEFF}'
    // general category Zs
    || c == ' ' || c == '\U{A0}' || c == '\U{1680}'
    || ('\U{2000}' <= c <= '\U{200A}')
    || c == '\U{202F}' || c == '\U{205F}' || c == '\U{3000}'
    // LineTerminator
    || c == '\n' || c == '\r' || c == '\U{2028}' || c == '\U{2029}'
  }

  predicate AllWhiteSpace(s: string) {
    forall i | 0 <= i < |s| :: IsWhiteSpace(s[i])
  }

  /** Neither the first nor the last character is white space. */
  predicate NoWhiteSpaceAtEnds(s: string) {
    s == [] || (!IsWhiteSpace(s[0]) && !IsWhiteSpace(s[|s| - 1]))
  }

  /** Drops the leading white space: what is left is a suffix of `s`, what was
      dropped is all white space, and what is left does not start with it. */
  function TrimStart(s: string): (r: string)
    ensures |r| <= |s| && r == s[|s| - |r|..]
    ensures AllWhiteSpace(s[..|s| - |r|])
    ensures r == [] || !IsWhiteSpace(r[0])
  {
    if |s| > 0 && IsWhiteSpace(s[0]) then
      var r := TrimStart(s[1..]);
      assert s[..|s| - |r|] == [s[0]] + s[1..][..|s| - 1 - |r|];
      r
    else s
  }

  /** Drops the trailing white space: what is left is a prefix of `s`, what was
      dropped is all white space, and what is left does not end with it. */
  function TrimEnd(s: string): (r: string)
    ensures |r| <= |s| && r == s[..|r|]
    ensures AllWhiteSpace(s[|r|..])
    ensures r == [] || !IsWhiteSpace(r[|r| - 1])
  {
    if |s| > 0 && IsWhiteSpace(s[|s| - 1]) then
      var r := TrimEnd(s[..|s| - 1]);
      assert s[|r|..] == s[..|s| - 1][|r|..] + [s[|s| - 1]];
      r
    else s
  }

  /** `String.prototype.trim`: strips white space from both ends. The result
      neither starts nor ends with white space; `TrimSplit` shows that it is
      what is left of `s` once white space on either side is removed, and
      `TrimUnique` that it is the only such piece of `s`. */
  function Trim(s: string): (r: string)
    ensures |r| <= |s|
    ensures NoWhiteSpaceAtEnds(r)
  {
    TrimEnd(TrimStart(s))
  }

  /** Number of UTF-16 code units of `s`: what JavaScript's `length` reports.
      A code point above U+FFFF takes a surrogate pair. */
  function Utf16Length(s: string): nat {
    if s == [] then 0
    else (if s[0] < '\U{10000}' then 1 else 2) + Utf16Length(s[1..])
  }

  /** Every character of `s` lies in the Basic Multilingual Plane. */
  predicate AllBmp(s: string) {
    forall i | 0 <= i < |s| :: s[i] < '\U{10000}'
  }

  /** `n` copies of `c`, as JavaScript's `c.repeat(n)`. */
  function Repeat(c: char, n: nat): (r: string)
    ensures |r| == n
    ensures forall i | 0 <= i < n :: r[i] == c
  {
    if n == 0 then [] else [c] + Repeat(c, n - 1)
  }

  // ---------------------------------------------------------------------------
  // Trim

  lemma {:induction false} TrimStartOfPadded(p: string, x: string)
    requires AllWhiteSpace(p)
    requires x == [] || !IsWhiteSpace(x[0])
    ensures TrimStart(p + x) == x
  {
    if p != [] {
      assert (p + x)[1..] == p[1..] + x;
      TrimStartOfPadded(p[1..], x);
    } else {
      assert p + x == x;
    }
  }

  lemma {:induction false} TrimEndOfPadded(x: string, q: string)
    requires AllWhiteSpace(q)
    requires x == [] || !IsWhiteSpace(x[|x| - 1])
    ensures TrimEnd(x + q) == x
  {
    if q != [] {
      var q' := q[..|q| - 1];
      assert (x + q)[..|x + q| - 1] == x + q';
      TrimEndOfPadded(x, q');
    } else {
      assert x + q == x;
    }
  }

  /** `Trim` is determined by its contract: whenever `s` is some white space,
      then `r`, then some white space, and `r` has no white space at its ends,
      `Trim(s)` is `r`. */
  lemma TrimUnique(s: string, p: string, r: string, q: string)
    requires s == p + r + q
    requires AllWhiteSpace(p) && AllWhiteSpace(q)
    requires NoWhiteSpaceAtEnds(r)
    ensures Trim(s) == r
  {
    if r == [] {
      assert s == p + q;
      AllWhiteSpaceConcat(p, q);
      assert s + [] == s;
      TrimStartOfPadded(s, []);
    } else {
      assert s == p + (r + q);
      TrimStartOfPadded(p, r + q);
      TrimEndOfPadded(r, q);
    }
  }

  /** Trimming twice is trimming once. */
  lemma TrimIdempotent(s: string)
    ensures Trim(Trim(s)) == Trim(s)
  {
    var r := Trim(s);
    assert r == [] + r + [];
    TrimUnique(r, [], r, []);
  }

  /** Extra white space on either side never changes the result of `Trim`. */
  lemma TrimPaddingInvariant(p: string, s: string, q: string)
    requires AllWhiteSpace(p) && AllWhiteSpace(q)
    ensures Trim(p + s + q) == Trim(s)
  {
    var r := Trim(s);
    var pre, post := TrimSplit(s);
    AllWhiteSpaceConcat(p, pre);
    AllWhiteSpaceConcat(post, q);
    var p', q' := p + pre, post + q;
    Regroup(p, pre, r, post, q);
    TrimUnique(p + s + q, p', r, q');
  }

  /** The white space that `Trim` strips, on each side. */
  lemma TrimSplit(s: string) returns (pre: string, post: string)
    ensures s == pre + Trim(s) + post
    ensures AllWhiteSpace(pre) && AllWhiteSpace(post)
  {
    pre := TrimStartSplit(s);
    post := TrimEndSplit(TrimStart(s));
    Assoc(pre, Trim(s), post);
  }

  lemma TrimStartSplit(s: string) returns (pre: string)
    ensures s == pre + TrimStart(s) && AllWhiteSpace(pre)
  {
    var t := TrimStart(s);
    pre := s[..|s| - |t|];
    assert s == pre + t;
  }

  lemma TrimEndSplit(s: string) returns (post: string)
    ensures s == TrimEnd(s) + post && AllWhiteSpace(post)
  {
    var r := TrimEnd(s);
    post := s[|r|..];
    assert s == r + post;
  }

  lemma Assoc(a: string, b: string, c: string)
    ensures a + (b + c) == a + b + c
  {
  }

  lemma Regroup(a: string, b: string, c: string, d: string, e: string)
    ensures a + (b + c + d) + e == (a + b) + c + (d + e)
  {
  }

  lemma AllWhiteSpaceConcat(a: string, b: string)
    requires AllWhiteSpace(a) && AllWhiteSpace(b)
    ensures AllWhiteSpace(a + b)
  {
    forall i | 0 <= i < |a + b| ensures IsWhiteSpace((a + b)[i]) {
      if i >= |a| { assert (a + b)[i] == b[i - |a|]; }
    }
  }

  /** A string of white space only trims to the empty string, and only such a
      string does. */
  lemma TrimEmptyIff(s: string)
    ensures Trim(s) == [] <==> AllWhiteSpace(s)
  {
    if AllWhiteSpace(s) {
      assert s == s + [] + [];
      TrimUnique(s, s, [], []);
    }
    if Trim(s) == [] {
      var pre, post := TrimSplit(s);
      assert s == pre + post;
      AllWhiteSpaceConcat(pre, post);
    }
  }

  /** A string with no white space at its ends is left as it is. */
  lemma TrimOfTrimmed(s: string)
    requires NoWhiteSpaceAtEnds(s)
    ensures Trim(s) == s
  {
    assert s == [] + s + [];
    TrimUnique(s, [], s, []);
  }

  // ---------------------------------------------------------------------------
  // UTF-16 length

  lemma {:induction false} Utf16LengthConcat(a: string, b: string)
    ensures Utf16Length(a + b) == Utf16Length(a) + Utf16Length(b)
  {
    if a != [] {
      assert (a + b)[0] == a[0];
      assert (a + b)[1..] == a[1..] + b;
      Utf16LengthConcat(a[1..], b);
    } else {
      assert a + b == b;
    }
  }

  /** Each character takes one or two code units. */
  lemma {:induction false} Utf16LengthBounds(s: string)
    ensures |s| <= Utf16Length(s) <= 2 * |s|
  {
    if s != [] {
      Utf16LengthBounds(s[1..]);
    }
  }

  /** On the Basic Multilingual Plane the code-unit count is the character
      count. */
  lemma {:induction false} Utf16LengthOfBmp(s: string)
    ensures AllBmp(s) <==> Utf16Length(s) == |s|
  {
    if s != [] {
      Utf16LengthOfBmp(s[1..]);
      Utf16LengthBounds(s[1..]);
      if AllBmp(s[1..]) && s[0] < '\U{10000}' {
        assert forall i | 0 <= i < |s| :: s[i] < '\U{10000}' by {
          forall i | 0 <= i < |s| ensures s[i] < '\U{10000}' {
            if i > 0 { assert s[i] == s[1..][i - 1]; }
          }
        }
      }
      if AllBmp(s) {
        assert AllBmp(s[1..]) by {
          forall i | 0 <= i < |s| - 1 ensures s[1..][i] < '\U{10000}' {
            assert s[1..][i] == s[i + 1];
          }
        }
      }
    }
  }
}
