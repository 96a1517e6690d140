/**
 Python's `str.strip()` with no argument: it removes every leading and every
 trailing character for which `str.isspace()` holds, and nothing else.
 */
module Text {

  /** `str.isspace()` of one character in Python 3: the ASCII controls TAB, LF,
      VT, FF, CR, the separators U+001C..U+001F, SPACE, and the Unicode spaces
      NEL, NO-BREAK SPACE, OGHAM SPACE MARK, U+2000..U+200A, LINE and PARAGRAPH
      SEPARATOR, NARROW NO-BREAK SPACE, MEDIUM MATHEMATICAL SPACE and
      IDEOGRAPHIC SPACE. The usual ASCII whitespace is included; no ASCII letter
      or digit is, and nothing beyond IDEOGRAPHIC SPACE is. */
  predicate IsSpace(c: char)
    ensures c == ' ' || c == '\t' || c == '\n' || c == '\r' ==> IsSpace(c)
    ensures 'a' <= c <= 'z' || 'A' <= c <= 'Z' || '0' <= c <= '9' ==> !IsSpace(c)
    ensures IsSpace(c) ==> c as int <= 0x3000
  {
    var n := c as int;
    (9 <= n <= 13) || (28 <= n <= 32) || n == 0x85 || n == 0xA0 || n == 0x1680
    || (0x2000 <= n <= 0x200A) || n == 0x2028 || n == 0x2029 || n == 0x202F
    || n == 0x205F || n == 0x3000
  }

  /** Every character is whitespace. */
  predicate AllSpace(s: string) {
    s == [] || (IsSpace(s[0]) && AllSpace(s[1..]))
  }

  /** Neither the first nor the last character is whitespace. */
  predicate NoEdgeSpace(s: string) {
    s == [] || (!IsSpace(s[0]) && !IsSpace(s[|s| - 1]))
  }

  /** `s.strip()`: whitespace is removed from both edges, one character at a
      time, until neither edge is whitespace. */
  function Strip(s: string): (r: string)
    ensures |r| <= |s| && NoEdgeSpace(r)
  {
    if |s| > 0 && IsSpace(s[0]) then Strip(s[1..])
    else if |s| > 0 && IsSpace(s[|s| - 1]) then Strip(s[..|s| - 1])
    else s
  }

  /** A concatenation is all whitespace exactly when both parts are. */
  lemma {:induction false} AllSpaceConcat(a: string, b: string)
    ensures AllSpace(a + b) <==> AllSpace(a) && AllSpace(b)
  {
    if a == [] {
      assert a + b == b;
    } else {
      assert (a + b)[0] == a[0] && (a + b)[1..] == a[1..] + b;
      AllSpaceConcat(a[1..], b);
    }
  }

  /** A slice of `s[1..]` with whitespace around it, seen from `s`, when `s`
      starts with whitespace. */
  lemma SliceWithFirst(s: string, k: nat, n: nat)
    requires 0 < |s| && IsSpace(s[0]) && k + n < |s|
    requires AllSpace(s[1..][..k]) && AllSpace(s[1..][k + n..])
    ensures AllSpace(s[..k + 1]) && AllSpace(s[k + 1 + n..])
    ensures s[1..][k..k + n] == s[k + 1..k + 1 + n]
  {
    assert s[..k + 1][1..] == s[1..][..k];
    assert s[1..][k + n..] == s[k + 1 + n..];
  }

  /** A slice of `s[..|s| - 1]` with whitespace around it, seen from `s`, when
      `s` ends with whitespace. */
  lemma SliceWithLast(s: string, i: nat, n: nat)
    requires 0 < |s| && IsSpace(s[|s| - 1]) && i + n < |s|
    requires AllSpace(s[..|s| - 1][..i]) && AllSpace(s[..|s| - 1][i + n..])
    ensures AllSpace(s[..i]) && AllSpace(s[i + n..])
    ensures s[..|s| - 1][i..i + n] == s[i..i + n]
  {
    var t := s[..|s| - 1];
    assert t[..i] == s[..i];
    assert s[i + n..] == t[i + n..] + s[|s| - 1..];
    AllSpaceConcat(t[i + n..], s[|s| - 1..]);
  }

  /** `Strip(s)` is the slice of `s` starting at `i`, with only whitespace
      before and after it. */
  lemma {:induction false} StripSlice(s: string) returns (i: nat)
    ensures i + |Strip(s)| <= |s|
    ensures Strip(s) == s[i..i + |Strip(s)|]
    ensures AllSpace(s[..i]) && AllSpace(s[i + |Strip(s)|..])
  {
    var n := |Strip(s)|;
    if |s| > 0 && IsSpace(s[0]) {
      var k := StripSlice(s[1..]);
      SliceWithFirst(s, k, n);
      i := k + 1;
    } else if |s| > 0 && IsSpace(s[|s| - 1]) {
      i := StripSlice(s[..|s| - 1]);
      SliceWithLast(s, i, n);
    } else {
      i := 0;
      assert s[..0] == [] && s[0..|s|] == s && s[|s|..] == [];
    }
  }

  /** A cut of `s` at `i <= j` with whitespace before `i` and after `j` seen
      from `s[1..]`, when the cut does not start at 0. */
  lemma CutWithoutFirst(s: string, i: nat, j: nat)
    requires 0 < i <= j <= |s| && AllSpace(s[..i]) && AllSpace(s[j..])
    ensures AllSpace(s[1..][..i - 1]) && AllSpace(s[1..][j - 1..])
    ensures s[1..][i - 1..j - 1] == s[i..j]
  {
    assert s[..i][1..] == s[1..][..i - 1];
    assert s[1..][j - 1..] == s[j..];
  }

  /** The same cut seen from `s[..|s| - 1]`, when it does not end at `|s|`. */
  lemma CutWithoutLast(s: string, i: nat, j: nat)
    requires i <= j < |s| && AllSpace(s[..i]) && AllSpace(s[j..])
    ensures AllSpace(s[..|s| - 1][..i]) && AllSpace(s[..|s| - 1][j..])
    ensures s[..|s| - 1][i..j] == s[i..j]
  {
    var t := s[..|s| - 1];
    assert t[..i] == s[..i];
    assert s[j..] == t[j..] + s[|s| - 1..];
    AllSpaceConcat(t[j..], s[|s| - 1..]);
  }

  /** When a non-empty suffix of `s` is all whitespace, so is the last
      character of `s`. */
  lemma AllSpaceSuffixLast(s: string, j: nat)
    requires j <= |s| && AllSpace(s[j..])
    ensures j < |s| ==> IsSpace(s[|s| - 1])
  {
    if j < |s| {
      var w := s[j..];
      assert w == w[..|w| - 1] + w[|w| - 1..];
      AllSpaceConcat(w[..|w| - 1], w[|w| - 1..]);
      assert w[|w| - 1..][0] == s[|s| - 1];
    }
  }

  /** When a non-empty prefix of `s` is all whitespace, so is the first
      character of `s`. */
  lemma AllSpacePrefixFirst(s: string, i: nat)
    requires i <= |s| && AllSpace(s[..i])
    ensures 0 < i ==> IsSpace(s[0])
  {
    if 0 < i {
      assert s[..i][0] == s[0];
    }
  }

  /** The edges of a non-empty slice without edge whitespace. */
  lemma NoEdgeSpaceSlice(s: string, i: nat, j: nat)
    requires i <= j <= |s| && NoEdgeSpace(s[i..j])
    ensures i < j ==> !IsSpace(s[i]) && !IsSpace(s[j - 1])
  {
    if i < j {
      assert s[i..j][0] == s[i] && s[i..j][j - i - 1] == s[j - 1];
    }
  }

  /** `Strip` is the only way to cut `s` into whitespace, a slice without edge
      whitespace, and whitespace: any such cut gives `Strip(s)`. */
  lemma {:induction false} StripUnique(s: string, i: nat, j: nat)
    requires i <= j <= |s|
    requires AllSpace(s[..i]) && AllSpace(s[j..]) && NoEdgeSpace(s[i..j])
    ensures Strip(s) == s[i..j]
    decreases |s|
  {
    if |s| > 0 && IsSpace(s[0]) {
      if 0 < i {
        CutWithoutFirst(s, i, j);
        StripUnique(s[1..], i - 1, j - 1);
      } else {
        NoEdgeSpaceSlice(s, i, j);
        assert j == 0 && s[j..] == s;
        assert s[1..][..0] == [] && s[1..][0..] == s[1..];
        StripUnique(s[1..], 0, 0);
      }
    } else if |s| > 0 && IsSpace(s[|s| - 1]) {
      AllSpacePrefixFirst(s, i);
      NoEdgeSpaceSlice(s, i, j);
      assert j < |s|;
      CutWithoutLast(s, i, j);
      StripUnique(s[..|s| - 1], i, j);
    } else {
      AllSpacePrefixFirst(s, i);
      AllSpaceSuffixLast(s, j);
      assert i == 0 && j == |s|;
      assert s[0..|s|] == s;
    }
  }

  /** A string without edge whitespace is left as it is. */
  lemma StripNoEdge(s: string)
    requires NoEdgeSpace(s)
    ensures Strip(s) == s
  {
    assert s[..0] == [] && s[|s|..] == [] && s[0..|s|] == s;
    StripUnique(s, 0, |s|);
  }

  /** Whitespace appended after a string without edge whitespace is removed
      again by `Strip`. */
  lemma StripTrailingSpace(t: string, w: string)
    requires NoEdgeSpace(t) && AllSpace(w)
    ensures Strip(t + w) == t
  {
    var s := t + w;
    assert s[..0] == [] && s[|t|..] == w && s[0..|t|] == t;
    StripUnique(s, 0, |t|);
  }

  /** One trailing space makes no difference to `Strip`. */
  lemma StripDropsTrailingSpace(x: string)
    ensures Strip(x + " ") == Strip(x)
  {
    var i := StripSlice(x);
    var n := |Strip(x)|;
    var s := x + " ";
    assert s[..i] == x[..i] && s[i..i + n] == x[i..i + n];
    assert s[i + n..] == x[i + n..] + " ";
    assert " "[1..] == [];
    AllSpaceConcat(x[i + n..], " ");
    StripUnique(s, i, i + n);
  }

  /** A string made of whitespace only strips to the empty string. */
  lemma StripAllSpace(s: string)
    requires AllSpace(s)
    ensures Strip(s) == ""
  {
    assert s[..|s|] == s && s[|s|..] == [] && s[|s|..|s|] == [];
    StripUnique(s, |s|, |s|);
  }
}
