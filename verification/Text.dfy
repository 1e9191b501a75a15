/** The string operations of the scripts' language that the models rely on. */
module Text {

  /** White space as `String.prototype.trim` sees it. */
  predicate IsSpace(c: char) {
    || c in "\t\n\r "
    || c in ['\U{000B}', '\U{000C}', '\U{00A0}', '\U{1680}', '\U{2028}', '\U{2029}', '\U{202F}', '\U{205F}', '\U{3000}', '\U{FEFF}']
    || '\U{2000}' <= c <= '\U{200A}'
  }

  /** The code points of white space. */
  const SPACES := [0x9, 0xA, 0xB, 0xC, 0xD, 0x20, 0xA0, 0x1680, 0x2028, 0x2029, 0x202F, 0x205F, 0x3000, 0xFEFF]

  lemma SpacesAre(c: char)
    ensures IsSpace(c) <==> c as int in SPACES || 0x2000 <= c as int <= 0x200A
  {
  }

  predicate IsBlank(s: string) {
    forall i :: 0 <= i < |s| ==> IsSpace(s[i])
  }

  function TrimStart(s: string): string {
    if s != [] && IsSpace(s[0]) then TrimStart(s[1..]) else s
  }

  function TrimEnd(s: string): string {
    if s != [] && IsSpace(s[|s| - 1]) then TrimEnd(s[..|s| - 1]) else s
  }

  function Trim(s: string): string {
    TrimEnd(TrimStart(s))
  }

  /** The text neither starts nor ends with white space. */
  predicate IsTrimmed(s: string) {
    s != [] ==> !IsSpace(s[0]) && !IsSpace(s[|s| - 1])
  }

  function ToLowerAscii(s: string): string {
    seq(|s|, i requires 0 <= i < |s| => if 'A' <= s[i] <= 'Z' then s[i] - 'A' + 'a' else s[i])
  }

  predicate OccursAt(text: string, pattern: string, at: int) {
    0 <= at <= |text| - |pattern| && text[at..at + |pattern|] == pattern
  }

  predicate Contains(text: string, pattern: string) {
    exists at :: 0 <= at <= |text| - |pattern| && OccursAt(text, pattern, at)
  }

  function Join(parts: seq<string>, separator: string): string {
    if parts == [] then ""
    else if |parts| == 1 then parts[0]
    else parts[0] + separator + Join(parts[1..], separator)
  }

  // ----- Trimming -----

  lemma {:induction false} TrimStartCuts(s: string) returns (lead: string)
    ensures s == lead + TrimStart(s) && IsBlank(lead) && (TrimStart(s) != "" ==> !IsSpace(TrimStart(s)[0]))
  {
    if s != [] && IsSpace(s[0]) {
      lead := TrimStartCuts(s[1..]);
      lead := [s[0]] + lead;
    } else {
      lead := "";
    }
  }

  lemma TailGrows(s: string, kept: string, tail: string, last: char)
    requires s != "" && s[..|s| - 1] == kept + tail && s[|s| - 1] == last && IsSpace(last) && IsBlank(tail)
    ensures s == kept + (tail + [last]) && IsBlank(tail + [last])
  {
    assert s == s[..|s| - 1] + [last];
  }

  lemma {:induction false} TrimEndCuts(s: string) returns (tail: string)
    ensures s == TrimEnd(s) + tail && IsBlank(tail) && (TrimEnd(s) != "" ==> !IsSpace(TrimEnd(s)[|TrimEnd(s)| - 1]))
  {
    if s != [] && IsSpace(s[|s| - 1]) {
      var front, last := s[..|s| - 1], s[|s| - 1];
      tail := TrimEndCuts(front);
      TailGrows(s, TrimEnd(front), tail, last);
      tail := tail + [last];
    } else {
      tail := "";
    }
  }

  /** Trimming takes white space off both ends, all of it and nothing else. */
  lemma TrimCuts(s: string) returns (lead: string, tail: string)
    ensures s == lead + Trim(s) + tail && IsBlank(lead) && IsBlank(tail) && IsTrimmed(Trim(s))
    ensures Trim(s) == "" <==> IsBlank(s)
  {
    lead := TrimStartCuts(s);
    tail := TrimEndCuts(TrimStart(s));
    if Trim(s) != "" {
      assert Trim(s)[0] == TrimStart(s)[0];
      assert s[|lead|] == Trim(s)[0];
    }
  }

  // ----- Where a pattern occurs -----

  lemma OccursIff(text: string, pattern: string, at: nat)
    requires at + |pattern| <= |text|
    ensures OccursAt(text, pattern, at) <==> forall k :: 0 <= k < |pattern| ==> pattern[k] == text[at + k]
  {
    var part := text[at..at + |pattern|];
    assert forall k :: 0 <= k < |pattern| ==> part[k] == text[at + k];
  }

  lemma CoversChar(text: string, pattern: string, at: int, k: nat)
    requires OccursAt(text, pattern, at) && at <= k < at + |pattern|
    ensures text[k] in pattern
  {
    assert pattern[k - at] == text[at..at + |pattern|][k - at];
  }

  lemma OccursShifted(text: string, part: string, shift: nat, pattern: string, at: nat)
    requires shift + |part| <= |text| && text[shift..shift + |part|] == part && at + |pattern| <= |part|
    ensures OccursAt(text, pattern, shift + at) <==> OccursAt(part, pattern, at)
  {
    assert forall i :: 0 <= i < |part| ==> part[i] == text[shift..shift + |part|][i] == text[shift + i];
    assert part[at..at + |pattern|] == text[shift + at..shift + at + |pattern|];
  }

  /** A pattern occurs on one side of a character that is not in it. */
  lemma OccursInEitherPart(x: string, c: char, y: string, pattern: string, at: int)
    requires c !in pattern && pattern != ""
    ensures OccursAt(x + [c] + y, pattern, at) <==> OccursAt(x, pattern, at) || OccursAt(y, pattern, at - |x| - 1)
  {
    var text := x + [c] + y;
    assert text[|x|] == c && text[0..|x|] == x && text[|x| + 1..|x| + 1 + |y|] == y;
    if at < 0 || at + |pattern| > |text| {
    } else if at + |pattern| <= |x| {
      OccursShifted(text, x, 0, pattern, at);
    } else if at > |x| {
      OccursShifted(text, y, |x| + 1, pattern, at - |x| - 1);
    } else if OccursAt(text, pattern, at) {
      CoversChar(text, pattern, at, |x|);
    }
  }

  lemma ContainedInEitherPart(x: string, c: char, y: string, pattern: string)
    requires c !in pattern && pattern != ""
    ensures Contains(x + [c] + y, pattern) <==> Contains(x, pattern) || Contains(y, pattern)
  {
    var text := x + [c] + y;
    if Contains(text, pattern) {
      var at :| 0 <= at <= |text| - |pattern| && OccursAt(text, pattern, at);
      OccursInEitherPart(x, c, y, pattern, at);
    }
    if Contains(x, pattern) {
      var at :| 0 <= at <= |x| - |pattern| && OccursAt(x, pattern, at);
      OccursInEitherPart(x, c, y, pattern, at);
    }
    if Contains(y, pattern) {
      var at :| 0 <= at <= |y| - |pattern| && OccursAt(y, pattern, at);
      OccursInEitherPart(x, c, y, pattern, |x| + 1 + at);
      assert OccursAt(text, pattern, |x| + 1 + at);
    }
  }

  lemma LowerOfParts(x: string, y: string)
    ensures ToLowerAscii(x + y) == ToLowerAscii(x) + ToLowerAscii(y)
  {
  }
}
