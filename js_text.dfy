/** The JavaScript string built-ins the request handler relies on: what `\s`
    and `String.prototype.trim` treat as white space, `trim`, `startsWith`,
    and the case folding of a regular expression with the `i` flag.
    Strings are sequences of characters; UTF-16 code units are not modelled. */
module JsText {

  /** ECMAScript LineTerminator: `.` in a regular expression matches anything but these. */
  predicate IsLineTerminator(c: char) {
    c == '\n' || c == '\r' || c == '\U{2028}' || c == '\U{2029}'
  }

  /** ECMAScript WhiteSpace or LineTerminator: what `\s` matches and `trim` removes. */
  predicate IsSpace(c: char) {
    || IsLineTerminator(c)
    || c == '\t' || c == '\U{000B}' || c == '\U{000C}' || c == ' ' || c == '\U{00A0}'
    || c == '\U{1680}' || ('\U{2000}' <= c <= '\U{200A}')
    || c == '\U{202F}' || c == '\U{205F}' || c == '\U{3000}' || c == '\U{FEFF}'
  }

  predicate AllSpace(s: string) {
    forall i :: 0 <= i < |s| ==> IsSpace(s[i])
  }

  predicate NoLineTerminator(s: string) {
    forall i :: 0 <= i < |s| ==> !IsLineTerminator(s[i])
  }

  /** Neither end of `s` is white space. */
  predicate IsTrimmed(s: string) {
    s == [] || (!IsSpace(s[0]) && !IsSpace(s[|s| - 1]))
  }

  /** The end of the white-space run that starts at `i`: the first index at
      or after `i` that is not white space, or `|s|`. */
  function SkipSpace(s: string, i: nat): (j: nat)
    requires i <= |s|
    ensures i <= j <= |s|
    ensures forall k :: i <= k < j ==> IsSpace(s[k])
    ensures j < |s| ==> !IsSpace(s[j])
    decreases |s| - i
  {
    if i < |s| && IsSpace(s[i]) then SkipSpace(s, i + 1) else i
  }

  /** The start of the white-space run that ends at `j`: one past the last
      index before `j` that is not white space, or 0. */
  function SkipSpaceBack(s: string, j: nat): (i: nat)
    requires j <= |s|
    ensures i <= j
    ensures forall k :: i <= k < j ==> IsSpace(s[k])
    ensures 0 < i ==> !IsSpace(s[i - 1])
  {
    if 0 < j && IsSpace(s[j - 1]) then SkipSpaceBack(s, j - 1) else j
  }

  /** A white-space run is determined by where it starts: any run from `i`
      that stops at a non-space or at the end is the one `SkipSpace` finds. */
  lemma SkipSpaceIsRunEnd(s: string, i: nat, m: nat)
    requires i <= m <= |s|
    requires forall k :: i <= k < m ==> IsSpace(s[k])
    requires m < |s| ==> !IsSpace(s[m])
    ensures SkipSpace(s, i) == m
  {
  }

  /** The mirror image of `SkipSpaceIsRunEnd`. */
  lemma SkipSpaceBackIsRunStart(s: string, j: nat, m: nat)
    requires m <= j <= |s|
    requires forall k :: m <= k < j ==> IsSpace(s[k])
    requires 0 < m ==> !IsSpace(s[m - 1])
    ensures SkipSpaceBack(s, j) == m
  {
  }

  /** `s.trim()`: the text between the leading and the trailing white space;
      empty exactly when `s` is all white space, otherwise with neither end
      white space. */
  function Trim(s: string): (r: string)
    ensures |r| <= |s| && IsTrimmed(r)
    ensures r == [] <==> AllSpace(s)
    ensures NoLineTerminator(s) ==> NoLineTerminator(r)
  {
    var a := SkipSpace(s, 0);
    if a == |s| then []
    else
      var b := SkipSpaceBack(s, |s|);
      s[a..b]
  }

  /** `trim` undoes padding with white space: it gives back exactly the
      trimmed text in the middle. */
  lemma TrimPadded(a: string, s: string, b: string)
    requires AllSpace(a) && AllSpace(b) && IsTrimmed(s)
    ensures Trim(a + s + b) == s
  {
    var p := a + s + b;
    if s == [] {
      assert AllSpace(p) by {
        forall k | 0 <= k < |p| ensures IsSpace(p[k]) {
          assert k < |a| ==> p[k] == a[k];
          assert |a| <= k ==> p[k] == b[k - |a|];
        }
      }
    } else {
      LeadingPad(a, s, b);
      TrailingPad(a, s, b);
      assert p[|a|..|a| + |s|] == s;
    }
  }

  /** The leading run of a padded text ends where the text begins. */
  lemma LeadingPad(a: string, s: string, b: string)
    requires AllSpace(a) && s != [] && !IsSpace(s[0])
    ensures SkipSpace(a + s + b, 0) == |a|
  {
    var p := a + s + b;
    forall k | 0 <= k < |a| ensures IsSpace(p[k]) { assert p[k] == a[k]; }
    assert p[|a|] == s[0];
    SkipSpaceIsRunEnd(p, 0, |a|);
  }

  /** The trailing run of a padded text starts where the text ends. */
  lemma TrailingPad(a: string, s: string, b: string)
    requires AllSpace(b) && s != [] && !IsSpace(s[|s| - 1])
    ensures SkipSpaceBack(a + s + b, |a + s + b|) == |a| + |s|
  {
    var p := a + s + b;
    forall k | |a| + |s| <= k < |p| ensures IsSpace(p[k]) { assert p[k] == b[k - |a| - |s|]; }
    assert p[|a| + |s| - 1] == s[|s| - 1];
    SkipSpaceBackIsRunStart(p, |p|, |a| + |s|);
  }

  /** `s.startsWith(p)` */
  predicate StartsWith(s: string, p: string) {
    |p| <= |s| && s[..|p|] == p
  }

  /** The canonical form a case-insensitive, non-Unicode regular expression
      compares. Only ASCII letters are folded: in that mode no character
      outside ASCII folds onto an ASCII one, so for a pattern made of ASCII
      letters this is exact. */
  function FoldCase(c: char): char {
    if 'a' <= c <= 'z' then (c as int - 32) as char else c
  }
}
