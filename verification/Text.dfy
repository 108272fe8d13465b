/** Character classes and trimming, as the Python programs use them. */
module Text {

  /** `str.isspace`, and the `\s` of a regular expression over text. */
  predicate IsSpace(c: char) {
    var n := c as int;
    0x09 <= n <= 0x0D || 0x1C <= n <= 0x20 || n == 0x85 || n == 0xA0 || n == 0x1680
    || 0x2000 <= n <= 0x200A || n == 0x2028 || n == 0x2029 || n == 0x202F || n == 0x205F || n == 0x3000
  }

  function StripLeft(s: string): string {
    if s == "" || !IsSpace(s[0]) then s else StripLeft(s[1..])
  }

  function StripRight(s: string): string {
    if s == "" || !IsSpace(s[|s| - 1]) then s else StripRight(s[..|s| - 1])
  }

  /** `str.strip` */
  function Strip(s: string): string {
    StripRight(StripLeft(s))
  }

  predicate IsBlank(s: string) {
    Strip(s) == ""
  }

  lemma {:induction false} StripRightKeepsFirst(s: string)
    requires s != "" && !IsSpace(s[0])
    ensures StripRight(s) != ""
  {
    if IsSpace(s[|s| - 1]) {
      StripRightKeepsFirst(s[..|s| - 1]);
    }
  }

  lemma {:induction false} BlankIsAllSpace(s: string)
    requires IsBlank(s)
    ensures forall i :: 0 <= i < |s| ==> IsSpace(s[i])
  {
    if s != "" {
      if IsSpace(s[0]) {
        BlankIsAllSpace(s[1..]);
        assert forall i :: 1 <= i < |s| ==> s[i] == s[1..][i - 1];
      } else {
        StripRightKeepsFirst(s);
      }
    }
  }

  lemma {:induction false} StripTrailing(s: string, spaces: string)
    requires s != "" && !IsSpace(s[0]) && !IsSpace(s[|s| - 1])
    requires forall i :: 0 <= i < |spaces| ==> IsSpace(spaces[i])
    ensures Strip(s + spaces) == s
  {
    assert (s + spaces)[0] == s[0];
    assert StripLeft(s + spaces) == s + spaces;
    StripRightTrailing(s, spaces);
  }

  lemma {:induction false} StripRightTrailing(s: string, spaces: string)
    requires s != "" && !IsSpace(s[|s| - 1])
    requires forall i :: 0 <= i < |spaces| ==> IsSpace(spaces[i])
    ensures StripRight(s + spaces) == s
  {
    if spaces == "" {
      assert s + spaces == s;
    } else {
      assert (s + spaces)[..|s + spaces| - 1] == s + spaces[..|spaces| - 1];
      StripRightTrailing(s, spaces[..|spaces| - 1]);
    }
  }

  /** The order of strings. */
  predicate Before(a: string, b: string) {
    b != "" && (a == "" || a[0] < b[0] || (a[0] == b[0] && Before(a[1..], b[1..])))
  }

  lemma {:induction false} BeforeIsTotal(a: string, b: string)
    ensures a == b || Before(a, b) || Before(b, a)
    ensures !(Before(a, b) && (a == b || Before(b, a)))
  {
    if a != "" && b != "" {
      BeforeIsTotal(a[1..], b[1..]);
      assert a == [a[0]] + a[1..] && b == [b[0]] + b[1..];
    }
  }

  lemma {:induction false} BeforeIsTransitive(a: string, b: string, c: string)
    requires Before(a, b) && Before(b, c)
    ensures Before(a, c)
  {
    if a != "" && a[0] == b[0] == c[0] {
      BeforeIsTransitive(a[1..], b[1..], c[1..]);
    }
  }

  // ---- What is trimmed and compared ---------------------------------------------------------------

  ghost predicate AllSpace(s: string) {
    forall i :: 0 <= i < |s| ==> IsSpace(s[i])
  }

  /** The white space among the ASCII characters, and two characters that are none. */
  lemma AsciiSpaces(c: char)
    requires c as int < 128
    ensures IsSpace(c) <==> c == ' ' || c as int in {9, 10, 11, 12, 13, 28, 29, 30, 31}
    ensures !IsSpace('\U{200B}') && IsSpace('\U{00A0}')
  {
  }

  lemma {:induction false} StripLeftOf(spaces: string, s: string)
    requires AllSpace(spaces) && (s == "" || !IsSpace(s[0]))
    ensures StripLeft(spaces + s) == s
  {
    if spaces == "" {
      assert spaces + s == s;
    } else {
      assert (spaces + s)[1..] == spaces[1..] + s;
      StripLeftOf(spaces[1..], s);
    }
  }

  /** Trimming takes the white space on both sides and nothing else. */
  lemma StripOf(before: string, s: string, behind: string)
    requires AllSpace(before) && AllSpace(behind)
    requires s == "" || (!IsSpace(s[0]) && !IsSpace(s[|s| - 1]))
    ensures Strip(before + s + behind) == s
  {
    if s == "" {
      assert before + s + behind == (before + behind) + "";
      StripLeftOf(before + behind, "");
    } else {
      assert before + s + behind == before + (s + behind);
      assert (s + behind)[0] == s[0];
      StripLeftOf(before, s + behind);
      StripRightTrailing(s, behind);
    }
  }

  /** Any text is what trimming leaves of it, with white space around. */
  lemma StripParts(s: string) returns (before: string, behind: string)
    ensures AllSpace(before) && AllSpace(behind) && s == before + Strip(s) + behind
    ensures Strip(s) == "" || (!IsSpace(Strip(s)[0]) && !IsSpace(Strip(s)[|Strip(s)| - 1]))
  {
    before := StripLeftParts(s);
    behind := StripRightParts(StripLeft(s));
    var m, t := StripLeft(s), Strip(s);
    assert s == before + (t + behind) == before + t + behind;
    if t != "" {
      assert t[0] == m[0];
    }
  }

  lemma {:induction false} StripLeftParts(s: string) returns (before: string)
    ensures AllSpace(before) && s == before + StripLeft(s)
    ensures StripLeft(s) == "" || !IsSpace(StripLeft(s)[0])
  {
    if s == "" || !IsSpace(s[0]) {
      before := "";
    } else {
      var rest := StripLeftParts(s[1..]);
      before := [s[0]] + rest;
      assert s == [s[0]] + s[1..];
    }
  }

  lemma {:induction false} StripRightParts(s: string) returns (behind: string)
    ensures AllSpace(behind) && s == StripRight(s) + behind
    ensures StripRight(s) == "" || !IsSpace(StripRight(s)[|StripRight(s)| - 1])
  {
    if s == "" || !IsSpace(s[|s| - 1]) {
      behind := "";
    } else {
      var init := s[..|s| - 1];
      var rest := StripRightParts(init);
      behind := rest + [s[|s| - 1]];
      assert s == init + [s[|s| - 1]];
    }
  }

  lemma BlankIffAllSpace(s: string)
    ensures IsBlank(s) <==> AllSpace(s)
  {
    if IsBlank(s) {
      BlankIsAllSpace(s);
    } else if AllSpace(s) {
      assert s == s + "" + "";
      StripOf(s, "", "");
    }
  }

  /** Strings are ordered by the first character in which they differ; a beginning comes first. */
  lemma {:induction false} BeforeByFirstDifference(common: string, a: string, b: string)
    requires b != "" && (a == "" || a[0] != b[0])
    ensures Before(common + a, common + b) <==> a == "" || a[0] < b[0]
  {
    if common == "" {
      assert common + a == a && common + b == b;
    } else {
      assert (common + a)[1..] == common[1..] + a && (common + b)[1..] == common[1..] + b;
      BeforeByFirstDifference(common[1..], a, b);
    }
  }
}
