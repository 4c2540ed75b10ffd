/**
 * The part of Go's standard library that CreateTask relies on to reject a
 * description: strings.TrimSpace, which strips leading and trailing white
 * space as unicode.IsSpace defines it. Strings are sequences of code points.
 */
module Text {

  /** unicode.IsSpace: the Unicode White_Space property. */
  predicate IsSpace(c: char): (b: bool)
    ensures (c as int) < 0x80 ==> (b <==> c in {'\t', '\n', '\r', ' '} || 0x0B <= c as int <= 0x0C)
    ensures b ==> (c as int) <= 0x3000
  {
    var n := c as int;
    || (0x09 <= n <= 0x0D) || n == 0x20 || n == 0x85 || n == 0xA0
    || n == 0x1680 || (0x2000 <= n <= 0x200A)
    || n == 0x2028 || n == 0x2029 || n == 0x202F || n == 0x205F || n == 0x3000
  }

  /** Every character of s is white space (the empty string included). */
  predicate Blank(s: string) {
    forall i :: 0 <= i < |s| ==> IsSpace(s[i])
  }

  /** s without its leading white space: a suffix of s preceded only by spaces. */
  function TrimLeft(s: string): (r: string)
    ensures |r| <= |s| && r == s[|s| - |r|..]
    ensures forall k :: 0 <= k < |s| - |r| ==> IsSpace(s[k])
    ensures r == [] || !IsSpace(r[0])
  {
    if s != [] && IsSpace(s[0]) then TrimLeft(s[1..]) else s
  }

  /** s without its trailing white space: a prefix of s followed only by spaces. */
  function TrimRight(s: string): (r: string)
    ensures |r| <= |s| && r == s[..|r|]
    ensures forall k :: |r| <= k < |s| ==> IsSpace(s[k])
    ensures r == [] || !IsSpace(r[|r| - 1])
  {
    if s != [] && IsSpace(s[|s| - 1]) then TrimRight(s[..|s| - 1]) else s
  }

  /** r is what remains of s once the white space at both ends is cut: s == s[..i] + r + s[i + |r|..]. */
  predicate TrimmedAt(s: string, i: int, r: string) {
    && 0 <= i && i + |r| <= |s| && r == s[i..i + |r|]
    && (forall k :: 0 <= k < i ==> IsSpace(s[k]))
    && (forall k :: i + |r| <= k < |s| ==> IsSpace(s[k]))
    && (r == [] || (!IsSpace(r[0]) && !IsSpace(r[|r| - 1])))
  }

  /**
   * strings.TrimSpace: the slice of s that remains once the white space at
   * both ends is removed; it neither starts nor ends with white space.
   */
  function TrimSpace(s: string): (r: string)
    ensures TrimmedAt(s, |s| - |TrimLeft(s)|, r)
  {
    var l := TrimLeft(s);
    var r := TrimRight(l);
    TrimBothEnds(s, l, r);
    r
  }

  /** Trimming the front of s to l and then the back of l to r trims s at both ends. */
  lemma TrimBothEnds(s: string, l: string, r: string)
    requires |l| <= |s| && l == s[|s| - |l|..]
    requires forall k :: 0 <= k < |s| - |l| ==> IsSpace(s[k])
    requires l == [] || !IsSpace(l[0])
    requires |r| <= |l| && r == l[..|r|]
    requires forall k :: |r| <= k < |l| ==> IsSpace(l[k])
    requires r == [] || !IsSpace(r[|r| - 1])
    ensures TrimmedAt(s, |s| - |l|, r)
  {
    var i := |s| - |l|;
    forall k | i + |r| <= k < |s| ensures IsSpace(s[k]) {
      assert s[k] == l[k - i];
    }
    if r != [] {
      assert r[0] == l[0];
    }
  }

  /** strings.TrimSpace(s) == "": the test CreateTask applies to a description. */
  function TrimsToEmpty(s: string): (b: bool)
    ensures b <==> Blank(s)
  {
    TrimSpaceEmptyIffBlank(s);
    TrimSpace(s) == []
  }

  /** TrimSpace(s) is empty exactly when s consists of white space only. */
  lemma TrimSpaceEmptyIffBlank(s: string)
    ensures TrimSpace(s) == [] <==> Blank(s)
  {
    var l := TrimLeft(s);
    if TrimSpace(s) == [] {
      // TrimRight empties l only if l is all white space, yet l does not
      // start with white space: so l is empty and s is all white space
      assert l == [];
    } else {
      assert s[|s| - |l| + 0] == TrimSpace(s)[0];
    }
  }
}
