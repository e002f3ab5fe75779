/** The yes/no test the runner applies to every answer it reads:
    `answer.strip().lower().startswith("y")` (runner.py lines 121-122 and
    126-127). */
module Answers {

  /** Python's str.isspace for a single character: the characters str.strip()
      removes when called without arguments. */
  predicate IsSpace(c: char) {
    var n := c as int;
    || 0x09 <= n <= 0x0D || 0x1C <= n <= 0x20
    || n == 0x85 || n == 0xA0 || n == 0x1680
    || 0x2000 <= n <= 0x200A
    || n == 0x2028 || n == 0x2029 || n == 0x202F || n == 0x205F || n == 0x3000
  }

  ghost predicate AllSpace(s: string) {
    forall k :: 0 <= k < |s| ==> IsSpace(s[k])
  }

  /** str.lstrip(): drops leading whitespace. */
  function StripLeading(s: string): string {
    if s != [] && IsSpace(s[0]) then StripLeading(s[1..]) else s
  }

  /** str.rstrip(): drops trailing whitespace. */
  function StripTrailing(s: string): string {
    if s != [] && IsSpace(s[|s| - 1]) then StripTrailing(s[..|s| - 1]) else s
  }

  /** lstrip keeps exactly the suffix that starts at the first non-space
      character: everything it drops is whitespace, and what it keeps is empty
      or starts with a non-space. */
  lemma {:induction false} StripLeadingKeepsSuffix(s: string)
    ensures |StripLeading(s)| <= |s|
    ensures StripLeading(s) == s[|s| - |StripLeading(s)|..]
    ensures AllSpace(s[..|s| - |StripLeading(s)|])
    ensures StripLeading(s) == [] || !IsSpace(StripLeading(s)[0])
  {
    if s != [] && IsSpace(s[0]) {
      StripLeadingKeepsSuffix(s[1..]);
      var r := StripLeading(s[1..]);
      assert s[1..][|s| - 1 - |r|..] == s[|s| - |r|..];
      assert forall k :: 1 <= k < |s| - |r| ==> s[k] == s[1..][..|s| - 1 - |r|][k - 1];
    }
  }

  /** rstrip keeps exactly the prefix that ends at the last non-space
      character. */
  lemma {:induction false} StripTrailingKeepsPrefix(s: string)
    ensures |StripTrailing(s)| <= |s|
    ensures StripTrailing(s) == s[..|StripTrailing(s)|]
    ensures AllSpace(s[|StripTrailing(s)|..])
    ensures StripTrailing(s) == [] || !IsSpace(StripTrailing(s)[|StripTrailing(s)| - 1])
  {
    if s != [] && IsSpace(s[|s| - 1]) {
      StripTrailingKeepsPrefix(s[..|s| - 1]);
      var r := StripTrailing(s[..|s| - 1]);
      assert s[..|s| - 1][..|r|] == s[..|r|];
      assert forall k :: |r| <= k < |s| - 1 ==> s[k] == s[..|s| - 1][|r|..][k - |r|];
    }
  }

  /** str.strip() */
  function Strip(s: string): string {
    StripTrailing(StripLeading(s))
  }

  /** str.lower() on the ASCII letters. */
  function LowerChar(c: char): char {
    if 'A' <= c <= 'Z' then (c as int + 32) as char else c
  }

  /** str.lower() */
  function Lower(s: string): string {
    seq(|s|, i requires 0 <= i < |s| => LowerChar(s[i]))
  }

  /** str.startswith(prefix) */
  predicate StartsWith(s: string, prefix: string) {
    prefix <= s
  }

  /** The answer counts as "yes". */
  predicate IsYes(answer: string) {
    StartsWith(Lower(Strip(answer)), "y")
  }

  /** strip() keeps the middle of its argument: what it drops on either side
      is whitespace, and what it keeps is empty or starts and ends with a
      non-space character. */
  lemma StripKeepsMiddle(s: string)
    ensures exists i ::
      && 0 <= i <= i + |Strip(s)| <= |s|
      && Strip(s) == s[i..i + |Strip(s)|]
      && AllSpace(s[..i]) && AllSpace(s[i + |Strip(s)|..])
    ensures Strip(s) == [] || (!IsSpace(Strip(s)[0]) && !IsSpace(Strip(s)[|Strip(s)| - 1]))
  {
    StripLeadingKeepsSuffix(s);
    var left := StripLeading(s);
    StripTrailingKeepsPrefix(left);
    var r := Strip(s);
    var i := |s| - |left|;
    assert s[i + |r|..] == left[|r|..];
    assert r == s[i..i + |r|];
    if r != [] {
      assert r[0] == left[0];
    }
  }

  /** strip() is empty only when lstrip() is, and otherwise starts with the
      first non-space character. */
  lemma StripStartsAtFirstNonSpace(s: string)
    ensures |StripLeading(s)| <= |s|
    ensures Strip(s) == [] <==> StripLeading(s) == []
    ensures Strip(s) != [] ==> Strip(s)[0] == s[|s| - |StripLeading(s)|]
  {
    StripLeadingKeepsSuffix(s);
    var left := StripLeading(s);
    StripTrailingKeepsPrefix(left);
    var r := Strip(s);
    if left != [] {
      assert left[|r|..] != [] ==> left[|r|..][0] == left[|r|];
    }
  }

  /** The answer is "yes" exactly when its stripped form starts with 'y' or
      'Y'. */
  lemma IsYesFirstChar(answer: string)
    ensures IsYes(answer) <==> Strip(answer) != [] && (Strip(answer)[0] == 'y' || Strip(answer)[0] == 'Y')
  {
    var r := Strip(answer);
    if r != [] {
      assert Lower(r)[0] == LowerChar(r[0]);
    }
  }

  /** Two positions that both end a run of leading whitespace at a non-space
      character are the same. */
  lemma FirstNonSpaceUnique(s: string, i: nat, n: nat)
    requires i < |s| && AllSpace(s[..i]) && !IsSpace(s[i])
    requires n <= |s| && AllSpace(s[..n]) && (n == |s| || !IsSpace(s[n]))
    ensures i == n
  {
  }

  /** An answer is "yes" exactly when its first non-space character is 'y' or
      'Y'; whatever follows is ignored. */
  lemma IsYesIff(answer: string)
    ensures IsYes(answer) <==>
      exists i :: 0 <= i < |answer| && AllSpace(answer[..i]) && (answer[i] == 'y' || answer[i] == 'Y')
  {
    StripLeadingKeepsSuffix(answer);
    StripStartsAtFirstNonSpace(answer);
    IsYesFirstChar(answer);
    var left := StripLeading(answer);
    var n := |answer| - |left|;
    assert left != [] ==> left[0] == answer[n];
    if exists i :: 0 <= i < |answer| && AllSpace(answer[..i]) && (answer[i] == 'y' || answer[i] == 'Y') {
      var i :| 0 <= i < |answer| && AllSpace(answer[..i]) && (answer[i] == 'y' || answer[i] == 'Y');
      FirstNonSpaceUnique(answer, i, n);
    }
  }

  /** An empty or all-blank answer is "no", whatever the step's current
      status: the runner computes a default from it but never uses it. */
  lemma BlankIsNo(answer: string)
    requires AllSpace(answer)
    ensures !IsYes(answer)
  {
    IsYesIff(answer);
  }
}
