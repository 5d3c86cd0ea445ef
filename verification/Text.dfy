/** The parts of Python's string methods that the platform relies on. */
module Text {

  /** `str.isspace` on one character. */
  predicate IsSpace(c: char) {
    || '\t' <= c <= '\r'
    || '\U{1C}' <= c <= ' '
    || c == '\U{85}' || c == '\U{A0}' || c == '\U{1680}'
    || '\U{2000}' <= c <= '\U{200A}'
    || c == '\U{2028}' || c == '\U{2029}' || c == '\U{202F}' || c == '\U{205F}' || c == '\U{3000}'
  }

  function StripRight(s: string): (r: string)
    ensures r <= s && (r == [] || !IsSpace(r[|r| - 1]))
    ensures s == [] || !IsSpace(s[|s| - 1]) ==> r == s
  {
    if s == [] then []
    else if IsSpace(s[|s| - 1]) then StripRight(s[..|s| - 1])
    else s
  }

  lemma {:induction false} StripRightExactly(s: string)
    ensures forall i :: |StripRight(s)| <= i < |s| ==> IsSpace(s[i])
  {
    if s != [] && IsSpace(s[|s| - 1]) {
      StripRightExactly(s[..|s| - 1]);
      assert forall i :: 0 <= i < |s| - 1 ==> s[..|s| - 1][i] == s[i];
    }
  }

  function StripLeft(s: string): (r: string)
    ensures r == [] || !IsSpace(r[0])
    ensures s == [] || !IsSpace(s[0]) ==> r == s
  {
    if s == [] then []
    else if IsSpace(s[0]) then StripLeft(s[1..])
    else s
  }

  function Strip(s: string): string { StripRight(StripLeft(s)) }

  /** `value == value.strip()`. */
  predicate Trimmed(s: string) {
    s == [] || (!IsSpace(s[0]) && !IsSpace(s[|s| - 1]))
  }

  /** One line of at most `most` characters: not empty, trimmed, without control characters. */
  predicate IsLine(s: string, most: nat) {
    1 <= |s| <= most && Trimmed(s) && forall i :: 0 <= i < |s| ==> s[i] >= ' ' && s[i] != '\U{7F}'
  }

  predicate EndsWith(s: string, suffix: string) {
    |suffix| <= |s| && s[|s| - |suffix|..] == suffix
  }

  function RemoveSuffix(s: string, suffix: string): string {
    if suffix != [] && EndsWith(s, suffix) then s[..|s| - |suffix|] else s
  }

  function RemovePrefix(s: string, prefix: string): string {
    if prefix <= s then s[|prefix|..] else s
  }

  /** `needle in s`. */
  predicate Contains(s: string, needle: string) {
    needle <= s || (s != [] && Contains(s[1..], needle))
  }

  function Join(separator: string, parts: seq<string>): string {
    if parts == [] then []
    else if |parts| == 1 then parts[0]
    else parts[0] + separator + Join(separator, parts[1..])
  }

  // ---------------------------------------------------------------- texts that contain texts

  lemma {:induction false} ContainsAfter(head: string, s: string, needle: string)
    requires Contains(s, needle)
    ensures Contains(head + s, needle)
  {
    if head == [] {
      assert head + s == s;
    } else {
      assert (head + s)[1..] == head[1..] + s;
      ContainsAfter(head[1..], s, needle);
    }
  }

  lemma PrefixContained(needle: string, tail: string)
    ensures Contains(needle + tail, needle)
  {
    assert needle <= needle + tail;
  }

  lemma {:induction false} JoinContains(separator: string, parts: seq<string>, i: nat)
    requires i < |parts|
    ensures Contains(Join(separator, parts), parts[i])
  {
    if |parts| == 1 {
      assert parts[0] + [] == parts[0];
      PrefixContained(parts[0], []);
    } else if i == 0 {
      assert Join(separator, parts) == parts[0] + (separator + Join(separator, parts[1..]));
      PrefixContained(parts[0], separator + Join(separator, parts[1..]));
    } else {
      JoinContains(separator, parts[1..], i - 1);
      ContainsAfter(parts[0] + separator, Join(separator, parts[1..]), parts[i]);
    }
  }

  lemma {:induction false} ContainsBefore(s: string, tail: string, needle: string)
    requires Contains(s, needle)
    ensures Contains(s + tail, needle)
  {
    if needle <= s {
      assert needle <= s + tail;
    } else {
      assert (s + tail)[1..] == s[1..] + tail;
      ContainsBefore(s[1..], tail, needle);
    }
  }
}
