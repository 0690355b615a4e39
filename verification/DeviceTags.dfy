/** The tags that mark a device record in a day row's notes, and how they overlap as substrings. */
module DeviceTags {
  import opened Text

  const TAG_HEAD: string := "AI Face "

  function DeviceTag(text: string): string {
    TAG_HEAD + text
  }

  /** A text occurs in another with the same head only at the front, if the head's first character is nowhere else. */
  lemma HeadedInHeaded(head: string, other: string, text: string)
    requires head != "" && head[0] !in head[1..] && head[0] !in other
    ensures Contains(head + other, head + text) <==> text <= other
  {
    var s, t, n := head + other, head + text, |head|;
    if Contains(s, t) {
      var i :| 0 <= i <= |s| - |t| && OccursAt(s, t, i);
      assert s[i] == head[0] by {
        assert s[i..i + |t|][0] == t[0];
      }
      assert i == 0 by {
        assert forall k :: 0 < k < n ==> s[k] == head[1..][k - 1];
        assert forall k :: n <= k < |s| ==> s[k] == other[k - n];
      }
      assert text == t[n..] == s[..|t|][n..] == other[..|text|];
    }
    if text <= other {
      assert s[0..|t|] == head + other[..|text|];
      assert OccursAt(s, t, 0);
    }
  }

  /** Inside another tag, a tag can only start at the front, so its time text is a prefix of the other's. */
  lemma TagInTag(other: string, text: string)
    requires 'A' !in other
    ensures Contains(DeviceTag(other), DeviceTag(text)) <==> text <= other
  {
    assert TAG_HEAD[0] == 'A' && 'A' !in TAG_HEAD[1..];
    HeadedInHeaded(TAG_HEAD, other, text);
  }

  lemma HeadOnlyInFront(text: string)
    requires 'A' !in text
    ensures DeviceTag(text)[0] == 'A' && forall k :: 0 < k < |DeviceTag(text)| ==> DeviceTag(text)[k] != 'A'
  {
    var t, n := DeviceTag(text), |TAG_HEAD|;
    assert forall k :: 0 < k < n ==> t[k] == TAG_HEAD[k];
    assert forall k :: n <= k < |t| ==> t[k] == text[k - n];
  }

  /** Two texts of equal length side by side hold a third one only where they start. */
  lemma OccursWhereOneStarts(a: string, b: string, t: string, head: char)
    requires |a| == |b| == |t| > 0 && head != ' '
    requires a[0] == b[0] == t[0] == head
    requires forall k :: 0 < k < |a| ==> a[k] != head && b[k] != head
    ensures Contains(a + " " + b, t) <==> t == a || t == b
  {
    var s := a + " " + b;
    assert s[0..|a|] == a && s[|a| + 1..|a| + 1 + |b|] == b;
    if Contains(s, t) {
      var i :| 0 <= i <= |s| - |t| && OccursAt(s, t, i);
      assert s[i] == s[i..i + |t|][0] == head;
      assert i == 0 || i == |a| + 1;
    }
    if t == a {
      assert OccursAt(s, t, 0);
    }
    if t == b {
      assert OccursAt(s, t, |a| + 1);
    }
  }

  /** In notes that hold two tags of one length, a tag occurs exactly when it is one of them. */
  lemma TagInTwoTags(first: string, second: string, text: string)
    requires 'A' !in first && 'A' !in second && 'A' !in text && |first| == |second| == |text|
    ensures Contains(DeviceTag(first) + " " + DeviceTag(second), DeviceTag(text)) <==> text == first || text == second
  {
    HeadOnlyInFront(first);
    HeadOnlyInFront(second);
    HeadOnlyInFront(text);
    OccursWhereOneStarts(DeviceTag(first), DeviceTag(second), DeviceTag(text), 'A');
    assert DeviceTag(text)[|TAG_HEAD|..] == text;
    assert DeviceTag(first)[|TAG_HEAD|..] == first && DeviceTag(second)[|TAG_HEAD|..] == second;
  }
}
