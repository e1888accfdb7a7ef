/** Text as the services see it: blanks, letter case, and searching for a character. */
module Text {

  predicate IsSpace(c: char) {
    c == ' ' || c == '\t' || c == '\n' || c == '\r'
  }

  function TrimStart(s: string): string {
    if s != "" && IsSpace(s[0]) then TrimStart(s[1..]) else s
  }

  function TrimEnd(s: string): string {
    if s != "" && IsSpace(s[|s| - 1]) then TrimEnd(s[..|s| - 1]) else s
  }

  function Trim(s: string): string {
    TrimEnd(TrimStart(s))
  }

  function LowerChar(c: char): char {
    if 'A' <= c <= 'Z' then (c as int - 'A' as int + 'a' as int) as char else c
  }

  function Lower(s: string): (r: string)
    ensures |r| == |s|
  {
    seq(|s|, i requires 0 <= i < |s| => LowerChar(s[i]))
  }

  /** A text without blanks at its ends is left as it is. */
  lemma TrimKeeps(s: string)
    requires s != "" ==> !IsSpace(s[0]) && !IsSpace(s[|s| - 1])
    ensures Trim(s) == s
  {
  }

  lemma {:induction false} TrimEndEnds(s: string)
    ensures var r := TrimEnd(s); r != "" ==> !IsSpace(r[|r| - 1])
  {
    if s != "" && IsSpace(s[|s| - 1]) {
      TrimEndEnds(s[..|s| - 1]);
    }
  }

  /** Blanks around a text that has none at its ends come off, and nothing else. */
  lemma {:induction false} TrimmedFrom(before: string, s: string, after: string)
    requires forall c :: c in before || c in after ==> c in " \t\n\r"
    requires s != "" ==> s[0] !in " \t\n\r" && s[|s| - 1] !in " \t\n\r"
    ensures Trim(before + s + after) == s
    decreases |before| + |after|
  {
    var text := before + s + after;
    assert forall c :: c in " \t\n\r" <==> IsSpace(c);
    if before != "" {
      assert text[0] == before[0] && text[1..] == before[1..] + s + after;
      TrimmedFrom(before[1..], s, after);
    } else if after == "" {
      assert text == s;
      TrimKeeps(s);
    } else if s == "" {
      assert text[0] == after[0] && text[1..] == "" + s + after[1..];
      TrimmedFrom("", s, after[1..]);
    } else {
      assert text[0] == s[0] && text[|text| - 1] == after[|after| - 1];
      assert text[..|text| - 1] == "" + s + after[..|after| - 1];
      TrimmedFrom("", s, after[..|after| - 1]);
      assert TrimStart(text[..|text| - 1]) == text[..|text| - 1];
    }
  }

  /** Capital letters become small ones, and nothing else changes. */
  lemma LowerAt(s: string, i: nat)
    requires i < |s|
    ensures var capitals, smalls := "ABCDEFGHIJKLMNOPQRSTUVWXYZ", "abcdefghijklmnopqrstuvwxyz";
            && (forall n :: 0 <= n < 26 && s[i] == capitals[n] ==> Lower(s)[i] == smalls[n])
            && (s[i] !in capitals ==> Lower(s)[i] == s[i])
  {
    var capitals := "ABCDEFGHIJKLMNOPQRSTUVWXYZ";
    if 'A' <= s[i] <= 'Z' {
      assert s[i] == capitals[s[i] as int - 'A' as int];
    }
  }

  /** The first position of `c` at or after `from`, or the length. */
  function IndexOf(s: string, c: char, from: nat): (i: nat)
    requires from <= |s|
    ensures from <= i <= |s|
    ensures i < |s| ==> s[i] == c
    ensures forall k :: from <= k < i ==> s[k] != c
    decreases |s| - from
  {
    if from == |s| || s[from] == c then from else IndexOf(s, c, from + 1)
  }
}
