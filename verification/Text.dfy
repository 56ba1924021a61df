/** Python string helpers that several components rely on: `str.strip` and its laws. */
module Text {

  datatype Option<+T> = None | Some(value: T)

  /** The characters `str.strip` removes. */
  predicate IsSpace(c: char)
  {
    var n := c as int;
    9 <= n <= 13 || 28 <= n <= 32 || n == 0x85 || n == 0xA0 || n == 0x1680
    || 0x2000 <= n <= 0x200A || n == 0x2028 || n == 0x2029 || n == 0x202F || n == 0x205F || n == 0x3000
  }

  predicate Trimmed(s: string)
  {
    s == "" || (!IsSpace(s[0]) && !IsSpace(s[|s| - 1]))
  }

  function StripLeft(s: string): (r: string)
    ensures r == "" || !IsSpace(r[0])
    ensures |r| <= |s| && r == s[|s| - |r|..]
  {
    if s != "" && IsSpace(s[0]) then StripLeft(s[1..]) else s
  }

  function StripRight(s: string): (r: string)
    ensures r == "" || !IsSpace(r[|r| - 1])
    ensures |r| <= |s| && r == s[..|r|]
  {
    if s != "" && IsSpace(s[|s| - 1]) then StripRight(s[..|s| - 1]) else s
  }

  function Strip(s: string): (r: string)
    ensures Trimmed(r)
    ensures Trimmed(s) ==> r == s
  {
    StripRight(StripLeft(s))
  }

  ghost predicate Blank(s: string)
  {
    forall i :: 0 <= i < |s| ==> IsSpace(s[i])
  }

  lemma {:induction false} StripLeftLaw(s: string)
    ensures Blank(s[..|s| - |StripLeft(s)|])
  {
    if s != "" && IsSpace(s[0]) {
      StripLeftLaw(s[1..]);
      var n := |s| - |StripLeft(s)|;
      assert s[..n] == [s[0]] + s[1..][..n - 1];
    }
  }

  lemma {:induction false} StripRightLaw(s: string)
    ensures Blank(s[|StripRight(s)|..])
  {
    if s != "" && IsSpace(s[|s| - 1]) {
      StripRightLaw(s[..|s| - 1]);
      var n := |StripRight(s)|;
      assert s[n..] == s[..|s| - 1][n..] + [s[|s| - 1]];
    }
  }

  /** Only white space is stripped: all before and all behind a middle part that begins and ends otherwise. */
  lemma StripLaw(s: string) returns (before: string, behind: string)
    ensures s == before + Strip(s) + behind && Blank(before) && Blank(behind)
  {
    var left, middle := StripLeft(s), Strip(s);
    StripLeftLaw(s);
    StripRightLaw(left);
    before, behind := s[..|s| - |left|], left[|middle|..];
    Around(s, left, middle);
  }

  lemma Around(s: string, left: string, middle: string)
    requires |left| <= |s| && left == s[|s| - |left|..] && |middle| <= |left| && middle == left[..|middle|]
    ensures s == s[..|s| - |left|] + middle + left[|middle|..]
  {
  }
}
