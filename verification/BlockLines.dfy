/** Replacing the lines between two markers of a document
    (`scripts/sync-moonshot-docs.ts`, `replaceBlockLines`). */
module BlockLines {
  import opened Options
  import opened Text

  predicate NewlineFree(s: string) {
    '\n' !in s
  }

  /** The first place at or after `from` where `pattern` occurs, or -1. */
  function IndexOf(text: string, pattern: string, from: nat): (at: int)
    ensures at == -1 ==> forall i :: i >= from ==> !OccursAt(text, pattern, i)
    ensures at != -1 ==> at >= from && OccursAt(text, pattern, at) && forall i :: from <= i < at ==> !OccursAt(text, pattern, i)
    decreases |text| - from
  {
    if from + |pattern| > |text| then -1
    else if OccursAt(text, pattern, from) then from
    else IndexOf(text, pattern, from + 1)
  }

  /** Where the line holding position `at` starts: after the last newline at or before `at`. */
  function LineStart(text: string, at: nat): (start: nat)
    requires at <= |text|
    ensures start <= at + 1 && start <= |text|
    ensures start > 0 ==> text[start - 1] == '\n'
    ensures forall i :: start <= i <= at && i < |text| ==> text[i] != '\n'
  {
    if at < |text| && text[at] == '\n' then at + 1
    else if at == 0 then 0
    else LineStart(text, at - 1)
  }

  /** The position after the newline that ends the line holding `at`. */
  function LineEnd(text: string, at: nat): (end: nat)
    requires at <= |text|
    ensures at <= end <= |text|
    ensures end < |text| ==> end > at && text[end - 1] == '\n'
    ensures forall i :: at <= i < end - 1 ==> text[i] != '\n'
    decreases |text| - at
  {
    if at == |text| then at else if text[at] == '\n' then at + 1 else LineEnd(text, at + 1)
  }

  function Slice(text: string, from: nat, to: nat): string
    requires to <= |text|
  {
    if from <= to then text[from..to] else ""
  }

  function Indented(indent: string, lines: seq<string>): seq<string> {
    seq(|lines|, i requires 0 <= i < |lines| => indent + lines[i])
  }

  function Block(indent: string, startMarker: string, endMarker: string, lines: seq<string>): string {
    Join([indent + startMarker] + Indented(indent, lines) + [indent + endMarker], "\n")
  }

  function ReplaceBlockLines(text: string, startMarker: string, endMarker: string, lines: seq<string>): Result<string> {
    var startIndex := IndexOf(text, startMarker, 0);
    if startIndex == -1 then Failure("Missing start marker: " + startMarker)
    else
      var endIndex := IndexOf(text, endMarker, startIndex);
      if endIndex == -1 then Failure("Missing end marker: " + endMarker)
      else
        var startLineStart := LineStart(text, startIndex);
        var indent := Slice(text, startLineStart, startIndex);
        var before, after := text[..startLineStart], text[LineEnd(text, endIndex)..];
        var replacement := Block(indent, startMarker, endMarker, lines);
        if after == "" then Success(before + replacement) else Success(before + replacement + "\n" + after)
  }

  /** There is something to replace exactly when the end marker occurs at or after some
      occurrence of the start marker; otherwise the error names the marker that is missing. */
  lemma ReplacesIff(text: string, startMarker: string, endMarker: string, lines: seq<string>)
    ensures ReplaceBlockLines(text, startMarker, endMarker, lines).Success? <==>
      exists i, j :: 0 <= i <= j && OccursAt(text, startMarker, i) && OccursAt(text, endMarker, j)
    ensures ReplaceBlockLines(text, startMarker, endMarker, lines).Failure? ==>
      ReplaceBlockLines(text, startMarker, endMarker, lines).message ==
        if exists i :: OccursAt(text, startMarker, i) then "Missing end marker: " + endMarker
        else "Missing start marker: " + startMarker
  {
    var at := IndexOf(text, startMarker, 0);
    if i :| OccursAt(text, startMarker, i) {
      assert at != -1 && at <= i;
    }
    if i, j :| 0 <= i <= j && OccursAt(text, startMarker, i) && OccursAt(text, endMarker, j) {
      assert IndexOf(text, endMarker, at) != -1;
    }
  }

  // ----- The parts of a document -----

  /** The document is `before`, a line with `indent` and the start marker, more
      lines, and after the line with the first end marker `after`. */
  ghost predicate Splits(text: string, startMarker: string, endMarker: string, before: string, indent: string, after: string) {
    var head := before + indent;
    && head <= text
    && NewlineFree(indent) && (before == "" || before[|before| - 1] == '\n')
    && IndexOf(text, startMarker, 0) == |head|
    && IndexOf(text, endMarker, |head|) != -1
    && after == text[LineEnd(text, IndexOf(text, endMarker, |head|))..]
  }

  function Rendered(startMarker: string, endMarker: string, before: string, indent: string, after: string, lines: seq<string>): string {
    before + Block(indent, startMarker, endMarker, lines) + if after == "" then "" else "\n" + after
  }

  lemma {:induction false} LineStartIs(text: string, at: nat, start: nat)
    requires start <= at < |text| && (start == 0 || text[start - 1] == '\n')
    requires forall i :: start <= i <= at ==> text[i] != '\n'
    ensures LineStart(text, at) == start
    decreases at
  {
    if at > start {
      LineStartIs(text, at - 1, start);
    }
  }

  lemma HeadChars(text: string, before: string, indent: string)
    requires before + indent <= text
    ensures text[..|before|] == before && text[|before|..|before| + |indent|] == indent
    ensures forall i :: 0 <= i < |before| ==> text[i] == before[i]
    ensures forall i :: |before| <= i < |before| + |indent| ==> text[i] == indent[i - |before|]
  {
    var head := before + indent;
    assert forall i :: 0 <= i < |head| ==> text[i] == head[i];
  }

  lemma RenderedTail(before: string, block: string, after: string)
    ensures before + block + (if after == "" then "" else "\n" + after)
         == if after == "" then before + block else before + block + "\n" + after
  {
  }

  lemma LineOfHead(text: string, startMarker: string, before: string, indent: string)
    requires startMarker != "" && NewlineFree(startMarker) && NewlineFree(indent)
    requires before + indent <= text && OccursAt(text, startMarker, |before + indent|)
    requires before == "" || before[|before| - 1] == '\n'
    ensures LineStart(text, |before + indent|) == |before|
    ensures text[..|before|] == before && text[|before|..|before + indent|] == indent
  {
    assert text[|before + indent|] == startMarker[0];
    HeadChars(text, before, indent);
    LineStartIs(text, |before + indent|, |before|);
  }

  /** What is put together from the places that were found. */
  lemma ReplacedAt(
      text: string, startMarker: string, endMarker: string, lines: seq<string>, at: nat, start: nat, end: nat)
    requires IndexOf(text, startMarker, 0) == at && LineStart(text, at) == start <= at
    requires IndexOf(text, endMarker, at) == end
    ensures ReplaceBlockLines(text, startMarker, endMarker, lines)
         == Success(Rendered(startMarker, endMarker, text[..start], text[start..at], text[LineEnd(text, end)..], lines))
  {
    RenderedTail(text[..start], Block(text[start..at], startMarker, endMarker, lines), text[LineEnd(text, end)..]);
  }

  lemma SplitsGivesReplacement(
      text: string, startMarker: string, endMarker: string, before: string, indent: string, after: string, lines: seq<string>)
    requires startMarker != "" && NewlineFree(startMarker)
    requires Splits(text, startMarker, endMarker, before, indent, after)
    ensures ReplaceBlockLines(text, startMarker, endMarker, lines)
         == Success(Rendered(startMarker, endMarker, before, indent, after, lines))
  {
    var at := |before + indent|;
    LineOfHead(text, startMarker, before, indent);
    ReplacedAt(text, startMarker, endMarker, lines, at, |before|, IndexOf(text, endMarker, at));
  }

  /** What stands before the start marker on its line. */
  function IndentOf(text: string, startMarker: string): string
    requires startMarker != "" && IndexOf(text, startMarker, 0) != -1
  {
    var at := IndexOf(text, startMarker, 0);
    Slice(text, LineStart(text, at), at)
  }

  lemma ReplacedSplits(text: string, startMarker: string, endMarker: string, lines: seq<string>)
      returns (before: string, indent: string, after: string)
    requires startMarker != "" && NewlineFree(startMarker)
    requires ReplaceBlockLines(text, startMarker, endMarker, lines).Success?
    ensures Splits(text, startMarker, endMarker, before, indent, after)
    ensures indent == IndentOf(text, startMarker)
  {
    var at := IndexOf(text, startMarker, 0);
    assert text[at] == startMarker[0];
    var start := LineStart(text, at);
    before, indent := text[..start], text[start..at];
    after := text[LineEnd(text, IndexOf(text, endMarker, at))..];
    assert text[..at] == before + indent;
  }

  // ----- The shape of a replaced document -----

  /** What follows the line with the start marker. */
  function Rest(indent: string, endMarker: string, lines: seq<string>, tail: string): string {
    if lines == [] then indent + endMarker + tail
    else indent + lines[0] + "\n" + Rest(indent, endMarker, lines[1..], tail)
  }

  function Tail(after: string): string {
    if after == "" then "" else "\n" + after
  }

  lemma {:induction false} JoinIsRest(indent: string, endMarker: string, lines: seq<string>, tail: string)
    ensures Join(Indented(indent, lines) + [indent + endMarker], "\n") + tail == Rest(indent, endMarker, lines, tail)
  {
    var parts := Indented(indent, lines) + [indent + endMarker];
    if lines != [] {
      assert parts[1..] == Indented(indent, lines[1..]) + [indent + endMarker];
      JoinIsRest(indent, endMarker, lines[1..], tail);
    }
  }

  lemma RenderedShape(startMarker: string, endMarker: string, before: string, indent: string, after: string, lines: seq<string>)
    ensures Rendered(startMarker, endMarker, before, indent, after, lines)
         == (before + indent) + (startMarker + "\n" + Rest(indent, endMarker, lines, Tail(after)))
  {
    var rest := Indented(indent, lines) + [indent + endMarker];
    var parts := [indent + startMarker] + rest;
    assert [indent + startMarker] + Indented(indent, lines) + [indent + endMarker] == parts;
    assert parts[1..] == rest;
    JoinIsRest(indent, endMarker, lines, Tail(after));
    assert Join(parts, "\n") == indent + startMarker + "\n" + Join(rest, "\n");
  }

  predicate AnyLineContains(indent: string, lines: seq<string>, pattern: string) {
    exists i :: 0 <= i < |lines| && Contains(indent + lines[i], pattern)
  }

  /** How long the part before the last line of `Rest` is. */
  function BodyLength(indent: string, lines: seq<string>): nat {
    if lines == [] then 0 else |indent| + |lines[0]| + 1 + BodyLength(indent, lines[1..])
  }

  lemma {:induction false} RestEnds(indent: string, endMarker: string, lines: seq<string>, tail: string)
    ensures var rest, q := Rest(indent, endMarker, lines, tail), BodyLength(indent, lines);
      q <= |rest| && rest[q..] == indent + endMarker + tail && (q > 0 ==> rest[q - 1] == '\n')
  {
    if lines != [] {
      RestEnds(indent, endMarker, lines[1..], tail);
    }
  }

  predicate OccursBefore(text: string, pattern: string, limit: int) {
    exists i :: 0 <= i < limit && OccursAt(text, pattern, i)
  }

  lemma ContainedIffOccursBefore(x: string, y: string, pattern: string, limit: nat)
    requires NewlineFree(pattern) && pattern != ""
    ensures OccursBefore(x + "\n" + y, pattern, |x| + 1 + limit) <==> Contains(x, pattern) || OccursBefore(y, pattern, limit)
  {
    var text := x + "\n" + y;
    if OccursBefore(text, pattern, |x| + 1 + limit) {
      var i :| 0 <= i < |x| + 1 + limit && OccursAt(text, pattern, i);
      OccursInEitherPart(x, '\n', y, pattern, i);
      assert OccursAt(y, pattern, i - |x| - 1) ==> 0 <= i - |x| - 1;
    }
    if Contains(x, pattern) {
      var i :| 0 <= i <= |x| - |pattern| && OccursAt(x, pattern, i);
      OccursInEitherPart(x, '\n', y, pattern, i);
    }
    if OccursBefore(y, pattern, limit) {
      var i :| 0 <= i < limit && OccursAt(y, pattern, i);
      OccursInEitherPart(x, '\n', y, pattern, |x| + 1 + i);
      assert OccursAt(text, pattern, |x| + 1 + i);
    }
  }

  lemma {:induction false} BodyContains(indent: string, endMarker: string, lines: seq<string>, tail: string)
    requires NewlineFree(endMarker) && endMarker != ""
    ensures OccursBefore(Rest(indent, endMarker, lines, tail), endMarker, BodyLength(indent, lines))
       <==> AnyLineContains(indent, lines, endMarker)
  {
    if lines != [] {
      BodyContains(indent, endMarker, lines[1..], tail);
      ContainedIffOccursBefore(indent + lines[0], Rest(indent, endMarker, lines[1..], tail), endMarker, BodyLength(indent, lines[1..]));
      AnyLineOf(indent, lines, endMarker);
    }
  }

  lemma AnyLineOf(indent: string, lines: seq<string>, pattern: string)
    requires lines != []
    ensures AnyLineContains(indent, lines, pattern)
       <==> Contains(indent + lines[0], pattern) || AnyLineContains(indent, lines[1..], pattern)
  {
    if AnyLineContains(indent, lines[1..], pattern) {
      var i :| 0 <= i < |lines[1..]| && Contains(indent + lines[1..][i], pattern);
      assert lines[i + 1] == lines[1..][i];
    }
    if AnyLineContains(indent, lines, pattern) {
      var i :| 0 <= i < |lines| && Contains(indent + lines[i], pattern);
      assert i > 0 ==> lines[1..][i - 1] == lines[i];
    }
  }

  /** No text that replacement inserts before the end line holds the end marker. */
  predicate Clean(startMarker: string, endMarker: string, indent: string, lines: seq<string>) {
    !Contains(startMarker, endMarker) && !AnyLineContains(indent, lines, endMarker)
  }

  // ----- Replacing twice -----

  predicate IsMarker(s: string) {
    s != "" && NewlineFree(s)
  }

  /** The end marker is next found on the end line exactly when the content is clean;
      otherwise more text than before counts as following the block. */
  lemma NextAfter(startMarker: string, endMarker: string, indent: string, lines: seq<string>, after: string) returns (next: string)
    requires IsMarker(endMarker) && NewlineFree(indent)
    ensures var block := startMarker + "\n" + Rest(indent, endMarker, lines, Tail(after));
      var first := IndexOf(block, endMarker, 0);
      first != -1 && next == block[LineEnd(block, first)..]
    ensures Clean(startMarker, endMarker, indent, lines) ==> next == after
    ensures !Clean(startMarker, endMarker, indent, lines) ==> |next| > |after|
  {
    var rest, q := Rest(indent, endMarker, lines, Tail(after)), BodyLength(indent, lines);
    var block := startMarker + "\n" + rest;
    var endLine := |startMarker| + 1 + q;
    EndLineOf(startMarker, endMarker, indent, lines, after);
    EndMarkerOnLine(block, endLine, indent, endMarker, Tail(after));
    BodyContains(indent, endMarker, lines, Tail(after));
    ContainedIffOccursBefore(startMarker, rest, endMarker, q);
    var first := IndexOf(block, endMarker, 0);
    next := block[LineEnd(block, first)..];
    if Clean(startMarker, endMarker, indent, lines) {
      assert first >= endLine;
      LineEndsAfter(block, first, endLine, indent + endMarker, after);
    } else {
      assert first < endLine;
      assert LineEnd(block, first) <= endLine;
      assert |block[endLine..]| == |indent + endMarker + Tail(after)|;
    }
  }

  lemma PastNewline(line: string, rest: string, q: nat)
    requires q <= |rest| && (q > 0 ==> rest[q - 1] == '\n')
    ensures (line + "\n" + rest)[|line| + 1 + q..] == rest[q..]
    ensures (line + "\n" + rest)[|line| + q] == '\n'
  {
  }

  lemma EndLineOf(startMarker: string, endMarker: string, indent: string, lines: seq<string>, after: string)
    ensures var block := startMarker + "\n" + Rest(indent, endMarker, lines, Tail(after));
      var endLine := |startMarker| + 1 + BodyLength(indent, lines);
      endLine <= |block| && block[endLine..] == indent + endMarker + Tail(after) && block[endLine - 1] == '\n'
  {
    RestEnds(indent, endMarker, lines, Tail(after));
    PastNewline(startMarker, Rest(indent, endMarker, lines, Tail(after)), BodyLength(indent, lines));
  }

  lemma EndMarkerOnLine(block: string, endLine: nat, indent: string, endMarker: string, tail: string)
    requires endLine <= |block| && block[endLine..] == indent + endMarker + tail
    ensures OccursAt(block, endMarker, endLine + |indent|)
  {
    assert indent + endMarker + tail == indent + (endMarker + tail);
    LineChars(block, endLine, indent, endMarker + tail);
    OccursAtStart(block, endLine + |indent|, endMarker, tail);
  }

  lemma OccursAtStart(text: string, at: nat, pattern: string, tail: string)
    requires at <= |text| && text[at..] == pattern + tail
    ensures OccursAt(text, pattern, at)
  {
    assert text[at..at + |pattern|] == text[at..][..|pattern|];
  }

  lemma LineEndIs(text: string, at: nat, newline: nat)
    requires at <= newline <= |text| && forall i :: at <= i < newline ==> text[i] != '\n'
    requires newline < |text| ==> text[newline] == '\n'
    ensures LineEnd(text, at) == if newline < |text| then newline + 1 else |text|
  {
  }

  lemma LineChars(block: string, lineStart: nat, line: string, tail: string)
    requires lineStart <= |block| && block[lineStart..] == line + tail
    ensures lineStart + |line| <= |block| && block[lineStart + |line|..] == tail
    ensures forall i :: lineStart <= i < lineStart + |line| ==> block[i] == line[i - lineStart]
  {
    assert forall i :: lineStart <= i < |block| ==> block[i] == block[lineStart..][i - lineStart];
    assert block[lineStart + |line|..] == block[lineStart..][|line|..];
  }

  lemma LineEndsAfter(block: string, first: nat, lineStart: nat, line: string, after: string)
    requires lineStart <= first < lineStart + |line| && lineStart <= |block| && NewlineFree(line)
    requires block[lineStart..] == line + Tail(after)
    ensures block[LineEnd(block, first)..] == after
  {
    var end := lineStart + |line|;
    LineChars(block, lineStart, line, Tail(after));
    if after != "" {
      LineChars(block, end, "\n", after);
      assert "\n" + after == Tail(after);
      LineEndIs(block, first, end);
    } else {
      LineEndIs(block, first, end);
    }
  }

  lemma OccursPast(head: string, block: string, pattern: string, i: nat)
    ensures OccursAt(head + block, pattern, |head| + i) <==> OccursAt(block, pattern, i)
  {
    if i + |pattern| <= |block| {
      assert block[i..i + |pattern|] == (head + block)[|head| + i..|head| + i + |pattern|];
    }
  }

  /** A search from the end of `head` in `head + block` is a search in `block`. */
  lemma {:induction false} IndexOfPast(head: string, block: string, pattern: string, from: nat)
    ensures IndexOf(head + block, pattern, |head| + from)
         == if IndexOf(block, pattern, from) == -1 then -1 else |head| + IndexOf(block, pattern, from)
    decreases |block| - from
  {
    OccursPast(head, block, pattern, from);
    if from + |pattern| <= |block| && !OccursAt(block, pattern, from) {
      IndexOfPast(head, block, pattern, from + 1);
      assert |head| + from + 1 == |head| + (from + 1);
    }
  }

  lemma {:induction false} LineEndPast(head: string, block: string, at: nat)
    requires at <= |block|
    ensures LineEnd(head + block, |head| + at) == |head| + LineEnd(block, at)
    ensures (head + block)[|head| + LineEnd(block, at)..] == block[LineEnd(block, at)..]
    decreases |block| - at
  {
    if at < |block| && block[at] != '\n' {
      LineEndPast(head, block, at + 1);
    }
  }

  /** Two texts with a common beginning have the same first start marker. */
  lemma SameFirst(text: string, other: string, pattern: string, at: nat)
    requires IndexOf(text, pattern, 0) == at
    requires at + |pattern| <= |other| && other[..at + |pattern|] == text[..at + |pattern|]
    ensures IndexOf(other, pattern, 0) == at
  {
    SameOccurrence(text, other, pattern, at, at);
    forall i | 0 <= i < at
      ensures !OccursAt(other, pattern, i)
    {
      SameOccurrence(text, other, pattern, i, at);
    }
    FirstIs(other, pattern, at);
  }

  lemma FirstIs(text: string, pattern: string, at: nat)
    requires OccursAt(text, pattern, at) && forall i :: 0 <= i < at ==> !OccursAt(text, pattern, i)
    ensures IndexOf(text, pattern, 0) == at
  {
  }

  lemma SameOccurrence(text: string, other: string, pattern: string, i: nat, at: nat)
    requires i <= at && at + |pattern| <= |text| && at + |pattern| <= |other|
    requires other[..at + |pattern|] == text[..at + |pattern|]
    ensures OccursAt(other, pattern, i) <==> OccursAt(text, pattern, i)
  {
    SameSlice(text, other, i, i + |pattern|, at + |pattern|);
  }

  lemma SameSlice(text: string, other: string, from: nat, to: nat, shared: nat)
    requires from <= to <= shared <= |text| && shared <= |other| && other[..shared] == text[..shared]
    ensures other[from..to] == text[from..to]
  {
    assert text[..shared][from..to] == text[from..to] && other[..shared][from..to] == other[from..to];
  }

  /** A replaced document splits as the original did, up to what follows the end marker. */
  lemma ReplacedShape(
      text: string, startMarker: string, endMarker: string, before: string, indent: string, after: string, lines: seq<string>)
      returns (next: string)
    requires IsMarker(startMarker) && IsMarker(endMarker)
    requires Splits(text, startMarker, endMarker, before, indent, after)
    ensures Splits(Rendered(startMarker, endMarker, before, indent, after, lines), startMarker, endMarker, before, indent, next)
    ensures if Clean(startMarker, endMarker, indent, lines) then next == after else |next| > |after|
  {
    var block := startMarker + "\n" + Rest(indent, endMarker, lines, Tail(after));
    RenderedShape(startMarker, endMarker, before, indent, after, lines);
    next := NextAfter(startMarker, endMarker, indent, lines, after);
    BlockSplits(text, startMarker, endMarker, before, indent, after, block);
  }

  lemma BlockSplits(
      text: string, startMarker: string, endMarker: string, before: string, indent: string, after: string, block: string)
    requires Splits(text, startMarker, endMarker, before, indent, after)
    requires startMarker <= block && IndexOf(block, endMarker, 0) != -1
    ensures Splits((before + indent) + block, startMarker, endMarker, before, indent,
                   block[LineEnd(block, IndexOf(block, endMarker, 0))..])
  {
    var head, first := before + indent, IndexOf(block, endMarker, 0);
    SearchPast(head, block, endMarker, first);
    StartMarkerStays(text, startMarker, head, block);
    BeginsWith(head, block);
    PutTogether(head + block, startMarker, endMarker, before, indent, |head| + first);
  }

  lemma PutTogether(doc: string, startMarker: string, endMarker: string, before: string, indent: string, at: nat)
    requires before + indent <= doc && NewlineFree(indent) && (before == "" || before[|before| - 1] == '\n')
    requires IndexOf(doc, startMarker, 0) == |before + indent| && IndexOf(doc, endMarker, |before + indent|) == at
    ensures at <= |doc| && Splits(doc, startMarker, endMarker, before, indent, doc[LineEnd(doc, at)..])
  {
  }

  lemma BeginsWith(head: string, block: string)
    ensures head <= head + block
  {
  }

  lemma SearchPast(head: string, block: string, pattern: string, first: nat)
    requires first == IndexOf(block, pattern, 0)
    ensures first <= |block| && IndexOf(head + block, pattern, |head|) == |head| + first
    ensures (head + block)[LineEnd(head + block, |head| + first)..] == block[LineEnd(block, first)..]
  {
    IndexOfPast(head, block, pattern, 0);
    LineEndPast(head, block, first);
  }

  lemma StartMarkerStays(text: string, startMarker: string, head: string, block: string)
    requires |head| <= |text| && text[..|head|] == head && IndexOf(text, startMarker, 0) == |head|
    requires startMarker <= block
    ensures IndexOf(head + block, startMarker, 0) == |head|
  {
    assert text[..|head| + |startMarker|] == text[..|head|] + text[|head|..|head| + |startMarker|];
    assert (head + block)[..|head| + |startMarker|] == head + block[..|startMarker|];
    SameFirst(text, head + block, startMarker, |head|);
  }

  lemma LongerTail(startMarker: string, endMarker: string, before: string, indent: string, after: string, next: string, lines: seq<string>)
    ensures Rendered(startMarker, endMarker, before, indent, next, lines) == Rendered(startMarker, endMarker, before, indent, after, lines)
        ==> |next| == |after|
  {
  }

  /** A second replacement gives what it would have given at once, whatever it
      writes, exactly when the lines written first are clean. With the same
      lines: replacing twice is replacing once. */
  lemma LastReplacementWinsIff(
      text: string, startMarker: string, endMarker: string, first: seq<string>, second: seq<string>, replaced: string)
    requires IsMarker(startMarker) && IsMarker(endMarker)
    requires ReplaceBlockLines(text, startMarker, endMarker, first) == Success(replaced)
    ensures ReplaceBlockLines(replaced, startMarker, endMarker, second) == ReplaceBlockLines(text, startMarker, endMarker, second)
       <==> Clean(startMarker, endMarker, IndentOf(text, startMarker), first)
  {
    var before, indent, after := ReplacedSplits(text, startMarker, endMarker, first);
    SplitsGivesReplacement(text, startMarker, endMarker, before, indent, after, first);
    SplitsGivesReplacement(text, startMarker, endMarker, before, indent, after, second);
    var next := ReplacedShape(text, startMarker, endMarker, before, indent, after, first);
    SplitsGivesReplacement(replaced, startMarker, endMarker, before, indent, next, second);
    LongerTail(startMarker, endMarker, before, indent, after, next, second);
  }

  lemma ThreeParts(text: string, a: nat, b: nat)
    requires a <= b <= |text|
    ensures text == text[..a] + text[a..b] + text[b..]
  {
  }

  lemma SplitsCovers(text: string, startMarker: string, endMarker: string, before: string, indent: string, after: string)
    requires Splits(text, startMarker, endMarker, before, indent, after)
    ensures |before| + |after| <= |text|
    ensures text == before + text[|before|..|text| - |after|] + after
  {
    var at := |before| + |indent|;
    var end := LineEnd(text, IndexOf(text, endMarker, at));
    assert text[..|before|] == text[..at][..|before|] == before;
    assert |text| - |after| == end;
    ThreeParts(text, |before|, end);
  }

  /** The lines of the block: the start marker, the replacement and the end marker, all
      with the indentation of the start marker. */
  predicate AreBlock(block: seq<string>, indent: string, startMarker: string, endMarker: string, lines: seq<string>) {
    && |block| == |lines| + 2 && block[0] == indent + startMarker && block[|lines| + 1] == indent + endMarker
    && forall k :: 0 <= k < |lines| ==> block[k + 1] == indent + lines[k]
  }

  lemma BlockOf(indent: string, startMarker: string, endMarker: string, lines: seq<string>) returns (block: seq<string>)
    ensures AreBlock(block, indent, startMarker, endMarker, lines)
    ensures Block(indent, startMarker, endMarker, lines) == Join(block, "\n")
  {
    block := [indent + startMarker] + Indented(indent, lines) + [indent + endMarker];
  }

  /** Nothing before the line of the start marker or after the line of the end marker changes. */
  lemma ReplacementIsLocal(text: string, startMarker: string, endMarker: string, lines: seq<string>, replaced: string)
      returns (before: string, indent: string, block: seq<string>, after: string)
    requires IsMarker(startMarker) && IsMarker(endMarker)
    requires ReplaceBlockLines(text, startMarker, endMarker, lines) == Success(replaced)
    ensures Splits(text, startMarker, endMarker, before, indent, after)
    ensures |before| + |after| <= |text| && text == before + text[|before|..|text| - |after|] + after
    ensures AreBlock(block, indent, startMarker, endMarker, lines)
    ensures replaced == before + Join(block, "\n") + if after == "" then "" else "\n" + after
  {
    before, indent, after := ReplacedSplits(text, startMarker, endMarker, lines);
    block := BlockOf(indent, startMarker, endMarker, lines);
    SplitsGivesReplacement(text, startMarker, endMarker, before, indent, after, lines);
    SplitsCovers(text, startMarker, endMarker, before, indent, after);
  }

  // ----- An empty start marker -----

  /** With an empty start marker the block goes to the front of the document, behind
      a newline that is already there. */
  function Front(text: string): string {
    if text != "" && text[0] == '\n' then "\n" else ""
  }

  lemma EmptyStartIsAtFront(text: string, endMarker: string, lines: seq<string>, at: int)
    requires endMarker != "" && at == IndexOf(text, endMarker, 0) && at != -1
    ensures ReplaceBlockLines(text, "", endMarker, lines)
         == Success(Rendered("", endMarker, Front(text), "", text[LineEnd(text, at)..], lines))
  {
    assert text != "" && text[0..0] == "" && IndexOf(text, "", 0) == 0;
    assert LineStart(text, 0) == |Front(text)| && text[..|Front(text)|] == Front(text);
    RenderedTail(Front(text), Block("", "", endMarker, lines), text[LineEnd(text, at)..]);
  }

  /** The end marker cannot start on a newline in front of the block. */
  lemma EndMarkerPastFront(front: string, block: string, endMarker: string, first: nat)
    requires IsMarker(endMarker) && (front == "" || front == "\n") && first == IndexOf(block, endMarker, 0)
    ensures first <= |block| && IndexOf(front + block, endMarker, 0) == |front| + first
    ensures (front + block)[LineEnd(front + block, |front| + first)..] == block[LineEnd(block, first)..]
  {
    SearchPast(front, block, endMarker, first);
    if front != "" && OccursAt(front + block, endMarker, 0) {
      CoversChar(front + block, endMarker, 0, 0);
    }
  }

  lemma FrontedShape(endMarker: string, front: string, after: string, lines: seq<string>)
    ensures Rendered("", endMarker, front, "", after, lines) == front + ("" + "\n" + Rest("", endMarker, lines, Tail(after)))
  {
    RenderedShape("", endMarker, front, "", after, lines);
    assert front + "" == front;
  }

  lemma FrontedLength(endMarker: string, front: string, after: string, lines: seq<string>)
    ensures |Rendered("", endMarker, front, "", after, lines)| == |front| + |Block("", "", endMarker, lines)| + |Tail(after)|
  {
  }

  lemma FrontedMore(endMarker: string, after: string, lines: seq<string>)
    ensures Rendered("", endMarker, "\n", "", after, lines) == "\n" + Rendered("", endMarker, "", "", after, lines)
  {
  }

  lemma FrontedAgain(endMarker: string, front: string, after: string, next: string, lines: seq<string>)
    requires (front == "" || front == "\n") && (next == after || |next| > |after|)
    ensures var direct, again := Rendered("", endMarker, front, "", after, lines), Rendered("", endMarker, "\n", "", next, lines);
      && (again == direct <==> front == "\n" && next == after)
      && (if next == after then front + again == "\n" + direct else |again| > |direct|)
  {
    FrontedLength(endMarker, front, after, lines);
    FrontedLength(endMarker, "\n", next, lines);
    FrontedMore(endMarker, after, lines);
  }

  lemma EmptyStartIsClean(endMarker: string, lines: seq<string>)
    requires endMarker != ""
    ensures Clean("", endMarker, "", lines) <==> !AnyLineContains("", lines, endMarker)
  {
  }

  lemma FrontOfFronted(front: string, rest: string)
    requires front == "" || front == "\n"
    ensures Front(front + ("" + "\n" + rest)) == "\n"
  {
  }

  /** Where a second replacement finds its parts: always behind a newline, and the
      text after the block is the same exactly when the lines are clean. */
  lemma SecondFront(text: string, endMarker: string, after: string, lines: seq<string>) returns (next: string)
    requires IsMarker(endMarker)
    ensures var once := Rendered("", endMarker, Front(text), "", after, lines);
      var at := IndexOf(once, endMarker, 0);
      && Front(once) == "\n" && at != -1 && next == once[LineEnd(once, at)..]
    ensures if AnyLineContains("", lines, endMarker) then |next| > |after| else next == after
  {
    var block := "" + "\n" + Rest("", endMarker, lines, Tail(after));
    FrontedShape(endMarker, Front(text), after, lines);
    FrontOfFronted(Front(text), Rest("", endMarker, lines, Tail(after)));
    EmptyStartIsClean(endMarker, lines);
    next := NextAfter("", endMarker, "", lines, after);
    EndMarkerPastFront(Front(text), block, endMarker, IndexOf(block, endMarker, 0));
  }

  /** With an empty start marker a second replacement gives what it would have given at
      once exactly when the document starts with a newline and the lines written first
      are clean. Otherwise the document grows: by that newline alone if they are clean. */
  lemma EmptyStartMarkerGrows(
      text: string, endMarker: string, first: seq<string>, second: seq<string>, once: string)
    requires IsMarker(endMarker) && ReplaceBlockLines(text, "", endMarker, first) == Success(once)
    ensures var direct, again := ReplaceBlockLines(text, "", endMarker, second), ReplaceBlockLines(once, "", endMarker, second);
      && direct.Success? && again.Success?
      && (again == direct <==> Front(text) == "\n" && !AnyLineContains("", first, endMarker))
      && (if AnyLineContains("", first, endMarker) then |again.value| > |direct.value|
          else Front(text) + again.value == "\n" + direct.value)
  {
    var at := IndexOf(text, endMarker, 0);
    assert text == "" || IndexOf(text, "", 0) == 0;
    var after := text[LineEnd(text, at)..];
    EmptyStartIsAtFront(text, endMarker, first, at);
    EmptyStartIsAtFront(text, endMarker, second, at);
    var next := SecondFront(text, endMarker, after, first);
    EmptyStartIsAtFront(once, endMarker, second, IndexOf(once, endMarker, 0));
    FrontedAgain(endMarker, Front(text), after, next, second);
  }
}
