/** The string operations that the attendance services share. */
module Text {
  import opened Wrappers

  /** The characters str.strip() removes. */
  predicate IsSpace(c: char) {
    || c == ' ' || '\t' <= c <= '\r' || '\U{1c}' <= c <= '\U{1f}' || c == '\U{85}' || c == '\U{a0}'
    || c == '\U{1680}' || '\U{2000}' <= c <= '\U{200a}' || c == '\U{2028}' || c == '\U{2029}'
    || c == '\U{202f}' || c == '\U{205f}' || c == '\U{3000}'
  }

  predicate IsDigit(c: char) {
    '0' <= c <= '9'
  }

  predicate IsWordChar(c: char) {
    IsDigit(c) || 'a' <= c <= 'z' || 'A' <= c <= 'Z' || c == '_'
  }

  predicate Trimmed(s: string) {
    s == "" || (!IsSpace(s[0]) && !IsSpace(s[|s| - 1]))
  }

  function Strip(s: string): (r: string)
    ensures Trimmed(r)
    ensures Trimmed(s) <==> r == s
    decreases |s|
  {
    if s == "" then ""
    else if IsSpace(s[0]) then Strip(s[1..])
    else if IsSpace(s[|s| - 1]) then Strip(s[..|s| - 1])
    else s
  }

  predicate HasText(s: string) {
    exists i :: 0 <= i < |s| && !IsSpace(s[i])
  }

  /** Stripping leaves nothing exactly of a text that is all space. */
  lemma {:induction false} StripKeepsText(s: string)
    ensures Strip(s) != "" <==> HasText(s)
    decreases |s|
  {
    if s == "" {
    } else if IsSpace(s[0]) {
      StripKeepsText(s[1..]);
      assert HasText(s[1..]) ==> exists i :: 0 <= i < |s| - 1 && !IsSpace(s[1..][i]) && s[1..][i] == s[i + 1];
      assert forall i :: 1 <= i < |s| ==> s[i] == s[1..][i - 1];
    } else {
      assert !IsSpace(s[0]);
      if IsSpace(s[|s| - 1]) {
        StripKeepsText(s[..|s| - 1]);
        assert s[..|s| - 1][0] == s[0];
      }
    }
  }

  function OrEmpty(s: Option<string>): string {
    if s.None? then "" else s.value
  }

  function NoneIfEmpty(s: string): Option<string> {
    if s == "" then None else Some(s)
  }

  predicate OccursAt(s: string, t: string, i: int) {
    0 <= i <= |s| - |t| && s[i..i + |t|] == t
  }

  /** t occurs in s, as Python's `t in s`. */
  predicate Contains(s: string, t: string) {
    exists i | 0 <= i <= |s| - |t| :: OccursAt(s, t, i)
  }

  lemma ContainsWider(a: string, s: string, b: string, t: string)
    requires Contains(s, t)
    ensures Contains(a + s + b, t)
  {
    var i :| 0 <= i <= |s| - |t| && OccursAt(s, t, i);
    assert (a + s + b)[|a| + i..|a| + i + |t|] == s[i..i + |t|];
    assert OccursAt(a + s + b, t, |a| + i);
  }

  /** Stripping never loses an occurrence of a trimmed text. */
  lemma {:induction false} StripKeeps(s: string, t: string)
    requires Contains(s, t) && Trimmed(t) && t != ""
    ensures Contains(Strip(s), t)
    decreases |s|
  {
    var i :| 0 <= i <= |s| - |t| && OccursAt(s, t, i);
    if IsSpace(s[0]) {
      assert s[i] == t[0];
      assert OccursAt(s[1..], t, i - 1);
      StripKeeps(s[1..], t);
    } else if IsSpace(s[|s| - 1]) {
      assert s[i + |t| - 1] == t[|t| - 1];
      assert OccursAt(s[..|s| - 1], t, i);
      StripKeeps(s[..|s| - 1], t);
    }
  }

  /** The end of the longest run of characters satisfying p that starts at i. */
  function Run(s: string, i: nat, p: char -> bool): (j: nat)
    requires i <= |s|
    ensures i <= j <= |s|
    ensures forall k :: i <= k < j ==> p(s[k])
    ensures j < |s| ==> !p(s[j])
    decreases |s| - i
  {
    if i < |s| && p(s[i]) then Run(s, i + 1, p) else i
  }

  function Decimal(n: nat): (s: string)
    ensures s != "" && forall i :: 0 <= i < |s| ==> IsDigit(s[i])
  {
    var digit := [('0' as int + n % 10) as char];
    if n < 10 then digit else Decimal(n / 10) + digit
  }
}
