/**
 * The few string operations of Python that the scripts rely on, restricted to
 * ASCII: str.lower, str.strip, substring membership (`in`) and taking the text
 * before the first line break (`split('\n')[0]`).
 */
module Text {

  /** Characters below 128 that Python's str.isspace and the regex class \s accept. */
  predicate IsSpace(c: char) {
    c == ' ' || (9 <= c as int <= 13) || (28 <= c as int <= 31)
  }

  predicate IsUpper(c: char) {
    'A' <= c <= 'Z'
  }

  /** ASCII lower-casing of one character. */
  function LowerChar(c: char): (d: char)
    ensures IsUpper(c) ==> d as int == c as int + 32
    ensures !IsUpper(c) ==> d == c
  {
    if IsUpper(c) then (c as int + 32) as char else c
  }

  /** str.lower, character by character. */
  function Lower(s: string): (r: string)
    ensures |r| == |s|
    ensures forall i :: 0 <= i < |s| ==> r[i] == LowerChar(s[i])
  {
    if s == [] then [] else [LowerChar(s[0])] + Lower(s[1..])
  }

  /** The end of the run of whitespace that starts at `i`. */
  function SpaceRunEnd(s: string, i: nat): (j: nat)
    requires i <= |s|
    ensures i <= j <= |s|
    ensures forall k :: i <= k < j ==> IsSpace(s[k])
    ensures j == |s| || !IsSpace(s[j])
    decreases |s| - i
  {
    if i < |s| && IsSpace(s[i]) then SpaceRunEnd(s, i + 1) else i
  }

  /** The start of the run of whitespace that ends `s`, looking no further left than `lo`. */
  function TrailingSpaceStart(s: string, lo: nat): (j: nat)
    requires lo <= |s|
    ensures lo <= j <= |s|
    ensures forall k :: j <= k < |s| ==> IsSpace(s[k])
    ensures j == lo || !IsSpace(s[j - 1])
    decreases |s| - lo
  {
    if lo < |s| && IsSpace(s[|s| - 1]) then TrailingSpaceStart(s[..|s| - 1], lo) else |s|
  }

  /** str.strip: the whitespace at both ends removed, the rest kept as it is. */
  function Strip(s: string): (r: string)
    ensures exists i, j :: 0 <= i <= j <= |s| && r == s[i..j]
    ensures r != [] ==> !IsSpace(r[0]) && !IsSpace(r[|r| - 1])
  {
    var i := SpaceRunEnd(s, 0);
    s[i..TrailingSpaceStart(s, i)]
  }

  /**
   * Strip removes exactly the whitespace at the two ends: the result is the
   * slice s[i..j] where everything before `i` and everything from `j` on is
   * whitespace, and the slice neither starts nor ends with whitespace.
   */
  lemma StripExact(s: string)
    ensures exists i, j ::
              && 0 <= i <= j <= |s| && Strip(s) == s[i..j]
              && (forall k :: 0 <= k < i ==> IsSpace(s[k]))
              && (forall k :: j <= k < |s| ==> IsSpace(s[k]))
  {
    var i := SpaceRunEnd(s, 0);
    var j := TrailingSpaceStart(s, i);
    assert Strip(s) == s[i..j];
  }

  /** Strip gives the empty string exactly when every character is whitespace. */
  lemma StripEmpty(s: string)
    ensures Strip(s) == [] <==> forall k :: 0 <= k < |s| ==> IsSpace(s[k])
  {
  }

  /** `p` is a prefix of `s`. */
  predicate IsPrefix(p: string, s: string) {
    |p| <= |s| && s[..|p|] == p
  }

  /** Python's `sub in s`, searched from the left. */
  predicate Contains(s: string, sub: string) {
    IsPrefix(sub, s) || (s != [] && Contains(s[1..], sub))
  }

  /** Contains holds exactly when `sub` occurs at some position of `s`. */
  lemma {:induction false} ContainsOccurs(s: string, sub: string)
    ensures Contains(s, sub) <==> exists i :: 0 <= i <= |s| && IsPrefix(sub, s[i..])
  {
    if s == [] {
      assert s[0..] == s;
    } else {
      ContainsOccurs(s[1..], sub);
      if Contains(s, sub) {
        if IsPrefix(sub, s) {
          assert s[0..] == s;
        } else {
          var i :| 0 <= i <= |s| - 1 && IsPrefix(sub, s[1..][i..]);
          assert s[1..][i..] == s[i + 1..];
        }
      }
      if exists i :: 0 <= i <= |s| && IsPrefix(sub, s[i..]) {
        var i :| 0 <= i <= |s| && IsPrefix(sub, s[i..]);
        if i == 0 {
          assert s[0..] == s;
        } else {
          assert s[i..] == s[1..][i - 1..];
        }
      }
    }
  }

  /** `s.split('\n')[0]`: the text up to, not including, the first '\n'. */
  function FirstLine(s: string): (r: string)
    ensures IsPrefix(r, s)
    ensures '\n' !in r
    ensures |r| == |s| || s[|r|] == '\n'
  {
    if s == [] || s[0] == '\n' then [] else [s[0]] + FirstLine(s[1..])
  }
}
