/** Go's `strings.TrimSpace` over strings of characters. */
module Text {

  /**
   * Go's `unicode.IsSpace`: the Latin-1 spaces '\t', '\n', '\v', '\f', '\r',
   * ' ', U+0085 and U+00A0, and the other characters with the Unicode
   * White_Space property.
   */
  predicate IsSpace(c: char)
  {
    var n := c as int;
    || (9 <= n <= 13) || n == 32 || n == 0x85 || n == 0xA0
    || n == 0x1680 || (0x2000 <= n <= 0x200A) || n == 0x2028 || n == 0x2029
    || n == 0x202F || n == 0x205F || n == 0x3000
  }

  /** `strings.asciiSpace`: tab, newline, vertical tab, form feed, carriage return, space. */
  const AsciiSpace: set<char> := {'\t', '\n', '\U{000B}', '\U{000C}', '\r', ' '}

  /** Below U+0080, IsSpace is exactly the ASCII table of strings.TrimSpace's fast path. */
  lemma AsciiSpaceTable(c: char)
    requires c as int < 0x80
    ensures IsSpace(c) <==> c in AsciiSpace
  {
  }

  ghost predicate AllSpace(s: string)
  {
    forall i :: 0 <= i < |s| ==> IsSpace(s[i])
  }

  /** `s` without its leading white space: a suffix of `s` whose removed prefix is all space. */
  function TrimLeft(s: string): (r: string)
    ensures |r| <= |s| && r == s[|s| - |r|..]
    ensures AllSpace(s[..|s| - |r|])
    ensures r == [] || !IsSpace(r[0])
    decreases |s|
  {
    if |s| > 0 && IsSpace(s[0]) then
      var r := TrimLeft(s[1..]);
      assert s[..|s| - |r|] == [s[0]] + s[1..][..|s| - 1 - |r|];
      r
    else s
  }

  /** `s` without its trailing white space: a prefix of `s` whose removed suffix is all space. */
  function TrimRight(s: string): (r: string)
    ensures |r| <= |s| && r == s[..|r|]
    ensures AllSpace(s[|r|..])
    ensures r == [] || !IsSpace(r[|r| - 1])
    decreases |s|
  {
    if |s| > 0 && IsSpace(s[|s| - 1]) then
      var r := TrimRight(s[..|s| - 1]);
      assert s[|r|..] == s[..|s| - 1][|r|..] + [s[|s| - 1]];
      r
    else s
  }

  /** `strings.TrimSpace`: drop leading and trailing white space. */
  function TrimSpace(s: string): (r: string)
    ensures |r| <= |s|
    ensures r == [] || (!IsSpace(r[0]) && !IsSpace(r[|r| - 1]))
  {
    TrimRight(TrimLeft(s))
  }

  /** The trimmed string is the slice of `s` left once only leading and trailing white space is removed. */
  lemma TrimSpaceIsSlice(s: string)
    ensures var r := TrimSpace(s);
      exists i :: 0 <= i <= |s| - |r| && r == s[i..i + |r|] && AllSpace(s[..i]) && AllSpace(s[i + |r|..])
  {
    var left := TrimLeft(s);
    var r := TrimRight(left);
    var i := |s| - |left|;
    SliceOfSlice(s, i, r, left);
    assert 0 <= i <= |s| - |r| && r == s[i..i + |r|] && AllSpace(s[..i]) && AllSpace(s[i + |r|..]);
  }

  /** A prefix `r` of the suffix `left == s[i..]` sits at `s[i..i + |r|]`, followed by the rest of `left`. */
  lemma SliceOfSlice(s: string, i: nat, r: string, left: string)
    requires i <= |s| && left == s[i..] && |r| <= |left| && r == left[..|r|]
    ensures r == s[i..i + |r|] && s[i + |r|..] == left[|r|..]
  {
  }

  lemma {:induction false} TrimLeftSkipsSpace(pre: string, s: string)
    requires AllSpace(pre)
    ensures TrimLeft(pre + s) == TrimLeft(s)
    decreases |pre|
  {
    if pre == [] {
      assert pre + s == s;
    } else {
      assert (pre + s)[0] == pre[0];
      assert (pre + s)[1..] == pre[1..] + s;
      TrimLeftSkipsSpace(pre[1..], s);
    }
  }

  lemma {:induction false} TrimRightSkipsSpace(s: string, post: string)
    requires AllSpace(post)
    ensures TrimRight(s + post) == TrimRight(s)
    decreases |post|
  {
    if post == [] {
      assert s + post == s;
    } else {
      var last := |post| - 1;
      assert (s + post)[|s + post| - 1] == post[last];
      assert (s + post)[..|s + post| - 1] == s + post[..last];
      TrimRightSkipsSpace(s, post[..last]);
    }
  }

  /**
   * TrimSpace recovers a word from any white-space padding around it, as long
   * as the word itself neither starts nor ends with white space.
   */
  lemma TrimSpaceOfPadded(pre: string, w: string, post: string)
    requires AllSpace(pre) && AllSpace(post)
    requires w == [] || (!IsSpace(w[0]) && !IsSpace(w[|w| - 1]))
    ensures TrimSpace(pre + w + post) == w
  {
    assert pre + w + post == pre + (w + post);
    TrimLeftSkipsSpace(pre, w + post);
    if w == [] {
      assert w + post == [] + post;
      TrimLeftSkipsSpace(post, []);
      assert post + [] == post;
    } else {
      assert (w + post)[0] == w[0];
      TrimRightSkipsSpace(w, post);
    }
  }

  /** Trimming leaves a word with no white space at either end unchanged. */
  lemma TrimSpaceKeeps(w: string)
    requires w == [] || (!IsSpace(w[0]) && !IsSpace(w[|w| - 1]))
    ensures TrimSpace(w) == w
  {
  }

  /** Trimming twice is trimming once. */
  lemma TrimSpaceIdempotent(s: string)
    ensures TrimSpace(TrimSpace(s)) == TrimSpace(s)
  {
  }
}
