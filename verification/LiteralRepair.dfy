/** Undoing damage to string literals by the formatter (`scripts/control-ui-i18n.ts`,
    `restoreReplacementCorruptedStringLiterals`), with the literal pattern
    `"(?:\\.|[^"\\])*"` as a scanner. */
module LiteralRepair {
  import opened Sequences

  const REPLACEMENT_CHARACTER := '\U{FFFD}'

  predicate IsCorrupt(s: string) {
    REPLACEMENT_CHARACTER in s
  }

  /** What `.` does not match. */
  predicate IsLineTerminator(c: char) {
    c in ['\n', '\r', '\U{2028}', '\U{2029}']
  }

  // ----- The scanner -----

  /** How much of `s`, which follows an opening quote, the literal still takes; -1 if it does not end. */
  function Closing(s: string): (n: int)
    ensures n == -1 || 1 <= n <= |s|
  {
    if s == "" then -1
    else if s[0] == '"' then 1
    else if s[0] == '\\' then
      if |s| >= 2 && !IsLineTerminator(s[1]) && Closing(s[2..]) != -1 then 2 + Closing(s[2..]) else -1
    else if Closing(s[1..]) != -1 then 1 + Closing(s[1..]) else -1
  }

  predicate IsLiteral(s: string) {
    s != "" && s[0] == '"' && Closing(s[1..]) == |s| - 1
  }

  /** Whether a literal starts here. */
  predicate StartsLiteral(s: string) {
    s != "" && s[0] == '"' && Closing(s[1..]) != -1
  }

  /** How far the first literal is, or the length of the text if there is none. */
  function GapLength(s: string): (g: nat)
    ensures g <= |s| && (g < |s| ==> StartsLiteral(s[g..]))
  {
    if s == "" || StartsLiteral(s) then 0
    else
      assert s[1..][GapLength(s[1..])..] == s[1 + GapLength(s[1..])..];
      1 + GapLength(s[1..])
  }

  /** The end of the first literal. */
  function LiteralEnd(s: string): (end: nat)
    requires GapLength(s) < |s|
    ensures GapLength(s) + 2 <= end <= |s|
  {
    GapLength(s) + 1 + Closing(s[GapLength(s)..][1..])
  }

  predicate HasLiteral(s: string) {
    GapLength(s) < |s|
  }

  function FirstLiteral(s: string): string
    requires HasLiteral(s)
  {
    s[GapLength(s)..LiteralEnd(s)]
  }

  function Literals(s: string): seq<string>
    decreases |s|
  {
    if !HasLiteral(s) then [] else [FirstLiteral(s)] + Literals(s[LiteralEnd(s)..])
  }

  /** The texts between the literals. */
  function Gaps(s: string): (gaps: seq<string>)
    ensures |gaps| == |Literals(s)| + 1
    decreases |s|
  {
    if !HasLiteral(s) then [s] else [s[..GapLength(s)]] + Gaps(s[LiteralEnd(s)..])
  }

  /** The first `n` gaps and literals in turn. */
  function Prefix(gaps: seq<string>, literals: seq<string>, n: nat): string
    requires n <= |gaps| && n <= |literals|
  {
    if n == 0 then "" else Prefix(gaps, literals, n - 1) + gaps[n - 1] + literals[n - 1]
  }

  function Interleave(gaps: seq<string>, literals: seq<string>): string
    requires |gaps| == |literals| + 1
  {
    Prefix(gaps, literals, |literals|) + gaps[|literals|]
  }

  predicate AllLiterals(literals: seq<string>) {
    forall i :: 0 <= i < |literals| ==> IsLiteral(literals[i])
  }

  /** The scanner splits the whole text, and into literals. */
  lemma {:induction false} ScanSplits(s: string)
    ensures Interleave(Gaps(s), Literals(s)) == s && AllLiterals(Literals(s))
    decreases |s|
  {
    if HasLiteral(s) {
      var rest := s[LiteralEnd(s)..];
      ScanSplits(rest);
      FirstIsLiteral(s);
      InterleaveOne(s[..GapLength(s)], FirstLiteral(s), Gaps(rest), Literals(rest));
      FirstSplits(s);
    }
  }

  lemma FirstSplits(s: string)
    requires HasLiteral(s)
    ensures s == s[..GapLength(s)] + FirstLiteral(s) + s[LiteralEnd(s)..]
  {
    ThreePieces(s, GapLength(s), LiteralEnd(s));
  }

  lemma ThreePieces(s: string, i: nat, j: nat)
    requires i <= j <= |s|
    ensures s == s[..i] + s[i..j] + s[j..]
  {
  }

  lemma InterleaveOne(gap: string, literal: string, gaps: seq<string>, literals: seq<string>)
    requires |gaps| == |literals| + 1
    ensures Interleave([gap] + gaps, [literal] + literals) == gap + literal + Interleave(gaps, literals)
    ensures IsLiteral(literal) && AllLiterals(literals) ==> AllLiterals([literal] + literals)
  {
    PrefixOne(gap, literal, gaps, literals, |literals|);
    ConcatIsAssociative(gap + literal, Prefix(gaps, literals, |literals|), gaps[|literals|]);
    assert ([gap] + gaps)[|literals| + 1] == gaps[|literals|];
  }

  lemma {:induction false} PrefixOne(gap: string, literal: string, gaps: seq<string>, literals: seq<string>, n: nat)
    requires n <= |gaps| && n <= |literals|
    ensures Prefix([gap] + gaps, [literal] + literals, n + 1) == gap + literal + Prefix(gaps, literals, n)
  {
    var gs, ls := [gap] + gaps, [literal] + literals;
    if n == 0 {
      assert Prefix(gs, ls, 0) == "" && gs[0] == gap && ls[0] == literal;
      assert "" + gap == gap && gap + literal + "" == gap + literal;
    } else {
      PrefixOne(gap, literal, gaps, literals, n - 1);
      assert gs[n] == gaps[n - 1] && ls[n] == literals[n - 1];
      assert Prefix(gs, ls, n + 1) == Prefix(gs, ls, n) + gs[n] + ls[n];
      ConcatIsAssociative(gap + literal, Prefix(gaps, literals, n - 1), gaps[n - 1]);
      ConcatIsAssociative(gap + literal, Prefix(gaps, literals, n - 1) + gaps[n - 1], literals[n - 1]);
    }
  }

  lemma SliceInside(s: string, g: nat, n: nat)
    requires g + 1 + n <= |s|
    ensures s[g..g + 1 + n][1..] == s[g..][1..][..n]
  {
  }

  lemma FirstIsLiteral(s: string)
    requires HasLiteral(s)
    ensures IsLiteral(FirstLiteral(s))
  {
    var t := s[GapLength(s)..][1..];
    var n := Closing(t);
    ClosingIsLocal(t, t[..n], "");
    assert t[..n] + "" == t[..n];
    SliceInside(s, GapLength(s), n);
  }

  /** Where a literal closes depends on nothing behind it. */
  lemma {:induction false} ClosingIsLocal(s: string, literal: string, behind: string)
    requires Closing(s) == |literal| && s[..|literal|] == literal
    ensures Closing(literal + behind) == |literal|
  {
    var other := literal + behind;
    if s[0] != '"' {
      var k := if s[0] == '\\' then 2 else 1;
      assert s[k..][..|literal| - k] == literal[k..];
      ClosingIsLocal(s[k..], literal[k..], behind);
      assert other[k..] == literal[k..] + behind;
    }
  }

  // ----- The pattern -----

  /** One step of the repeated group: an escape or another character. */
  predicate IsAtom(atom: string) {
    || (|atom| == 1 && atom[0] != '"' && atom[0] != '\\')
    || (|atom| == 2 && atom[0] == '\\' && atom[1] !in ['\n', '\r', '\U{2028}', '\U{2029}'])
  }

  function Body(atoms: seq<string>): string {
    if atoms == [] then "\"" else atoms[0] + Body(atoms[1..])
  }

  /** `s` as a whole matches the pattern through these atoms. */
  predicate MatchesThrough(s: string, atoms: seq<string>) {
    (forall i :: 0 <= i < |atoms| ==> IsAtom(atoms[i])) && s == "\"" + Body(atoms)
  }

  lemma {:induction false} AtomsClose(atoms: seq<string>)
    requires forall i :: 0 <= i < |atoms| ==> IsAtom(atoms[i])
    ensures Closing(Body(atoms)) == |Body(atoms)|
  {
    if atoms != [] {
      AtomsClose(atoms[1..]);
      assert Body(atoms)[|atoms[0]|..] == Body(atoms[1..]);
    }
  }

  lemma {:induction false} AtomsOf(s: string) returns (atoms: seq<string>)
    requires Closing(s) == |s|
    ensures Body(atoms) == s && forall i :: 0 <= i < |atoms| ==> IsAtom(atoms[i])
  {
    if s[0] == '"' {
      atoms := [];
    } else {
      var k := if s[0] == '\\' then 2 else 1;
      var rest := AtomsOf(s[k..]);
      atoms := [s[..k]] + rest;
      assert atoms[1..] == rest && s == s[..k] + s[k..];
    }
  }

  /** The scanner's literals are the texts that match the pattern. */
  lemma LiteralIffPattern(s: string)
    ensures IsLiteral(s) <==> exists atoms :: MatchesThrough(s, atoms)
  {
    if IsLiteral(s) {
      var atoms := AtomsOf(s[1..]);
      assert s == "\"" + s[1..];
      assert MatchesThrough(s, atoms);
    }
    if exists atoms :: MatchesThrough(s, atoms) {
      var atoms :| MatchesThrough(s, atoms);
      AtomsClose(atoms);
      assert s[1..] == Body(atoms);
    }
  }

  lemma StartsLiteralIff(s: string)
    ensures StartsLiteral(s) <==> exists n :: 0 <= n <= |s| && IsLiteral(s[..n])
  {
    if StartsLiteral(s) {
      var n := Closing(s[1..]);
      ClosingIsLocal(s[1..], s[1..][..n], "");
      assert s[1..][..n] + "" == s[1..][..n];
      assert s[..n + 1][1..] == s[1..][..n];
      assert IsLiteral(s[..n + 1]);
    }
    if exists n :: 0 <= n <= |s| && IsLiteral(s[..n]) {
      var n :| 0 <= n <= |s| && IsLiteral(s[..n]);
      LiteralStarts(s[..n], s[n..]);
      assert s[..n] + s[n..] == s;
    }
  }

  /** No literal starts before the first that the scanner finds. */
  lemma {:induction false} FirstIsLeftmost(s: string, i: nat, n: nat)
    requires i < GapLength(s) && i <= n <= |s|
    ensures !IsLiteral(s[i..n])
  {
    if i == 0 {
      StartsLiteralIff(s);
      assert s[0..n] == s[..n];
    } else {
      FirstIsLeftmost(s[1..], i - 1, n - 1);
      assert s[1..][i - 1..n - 1] == s[i..n];
    }
  }

  // ----- A gap stays a gap -----

  lemma CloseAtOnce(gap: string, behind: string)
    requires StartsLiteral(behind) && (gap == "" || gap == "\\")
    ensures Closing(gap + behind) != -1
  {
    if gap == "" {
      assert gap + behind == behind;
    } else {
      assert (gap + behind)[2..] == behind[1..];
    }
  }

  /** Once a quote in a gap fails to open a literal, it fails whatever literal follows the gap. */
  lemma {:induction false} FailureIsLocal(gap: string, behind: string, other: string)
    requires StartsLiteral(behind) && StartsLiteral(other)
    requires Closing(gap + behind) == -1
    ensures Closing(gap + other) == -1
  {
    var s, t := gap + behind, gap + other;
    if gap == "" || gap == "\\" {
      CloseAtOnce(gap, behind);
    } else if gap[0] != '\\' {
      assert s[1..] == gap[1..] + behind && t[1..] == gap[1..] + other;
      if gap[0] != '"' {
        FailureIsLocal(gap[1..], behind, other);
      }
    } else {
      assert s[2..] == gap[2..] + behind && t[2..] == gap[2..] + other;
      if !IsLineTerminator(gap[1]) {
        FailureIsLocal(gap[2..], behind, other);
      }
    }
  }

  lemma {:induction false} GapIsLocal(gap: string, behind: string, other: string)
    requires StartsLiteral(behind) && StartsLiteral(other)
    requires GapLength(gap + behind) == |gap|
    ensures GapLength(gap + other) == |gap|
  {
    if gap == "" {
      assert gap + other == other;
    } else {
      assert (gap + behind)[1..] == gap[1..] + behind && (gap + other)[1..] == gap[1..] + other;
      assert !StartsLiteral(gap + behind);
      if gap[0] == '"' {
        FailureIsLocal(gap[1..], behind, other);
      }
      GapIsLocal(gap[1..], behind, other);
    }
  }

  lemma LiteralStarts(literal: string, behind: string)
    requires IsLiteral(literal)
    ensures StartsLiteral(literal + behind) && Closing((literal + behind)[1..]) == |literal| - 1
  {
    ClosingIsLocal(literal[1..], literal[1..], behind);
    assert (literal + behind)[1..] == literal[1..] + behind;
  }

  /** A gap, then any literal, is scanned as that gap and that literal. */
  lemma ScansFirst(s: string, literal: string, behind: string)
    requires HasLiteral(s) && IsLiteral(literal)
    ensures var t := s[..GapLength(s)] + literal + behind;
      && HasLiteral(t) && GapLength(t) == GapLength(s)
      && FirstLiteral(t) == literal && t[LiteralEnd(t)..] == behind && t[..GapLength(t)] == s[..GapLength(s)]
  {
    var gap := s[..GapLength(s)];
    var t := gap + literal + behind;
    LiteralStarts(literal, behind);
    assert gap + s[GapLength(s)..] == s && t == gap + (literal + behind);
    GapIsLocal(gap, s[GapLength(s)..], literal + behind);
    assert t[GapLength(t)..] == literal + behind;
  }

  /** Scanning a text whose literals were exchanged for others finds the
      original gaps and exactly the exchanged literals. */
  lemma {:induction false} RescanFindsExchanged(s: string, literals: seq<string>)
    requires |literals| == |Literals(s)| && AllLiterals(literals)
    ensures var t := Interleave(Gaps(s), literals); Gaps(t) == Gaps(s) && Literals(t) == literals
    decreases |s|
  {
    if HasLiteral(s) {
      var rest := s[LiteralEnd(s)..];
      var first, more := literals[0], literals[1..];
      assert literals == [first] + more;
      RescanFindsExchanged(rest, more);
      InterleaveOne(s[..GapLength(s)], first, Gaps(rest), more);
      ScansFirst(s, first, Interleave(Gaps(rest), more));
    } else {
      assert literals == [];
      assert "" + s == s;
    }
  }

  // ----- The repair -----

  function Choose(source: string, formatted: string): string {
    if IsCorrupt(formatted) && !IsCorrupt(source) then source else formatted
  }

  function ChooseAll(sources: seq<string>, formatted: seq<string>): (r: seq<string>)
    requires |sources| == |formatted|
    ensures |r| == |formatted|
    ensures forall i :: 0 <= i < |r| ==> r[i] == Choose(sources[i], formatted[i])
  {
    seq(|formatted|, i requires 0 <= i < |formatted| => Choose(sources[i], formatted[i]))
  }

  /** When the repair applies at all. */
  predicate Applies(source: string, formatted: string) {
    IsCorrupt(formatted) && !IsCorrupt(source) && |Literals(source)| == |Literals(formatted)|
  }

  function Repaired(source: string, formatted: string): string {
    if !Applies(source, formatted) then formatted
    else Interleave(Gaps(formatted), ChooseAll(Literals(source), Literals(formatted)))
  }

  /** Literals of a formatted text, with those of the source in place of damaged ones. */
  predicate TakesOver(result: seq<string>, sources: seq<string>, formatted: seq<string>) {
    && |result| == |sources| == |formatted|
    && forall i :: 0 <= i < |result| ==>
         result[i] == if '\U{FFFD}' in formatted[i] then sources[i] else formatted[i]
  }

  /** The repair keeps every gap, keeps each literal of the formatter that is not damaged,
      puts the source's in place of each other one, and leaves no damaged literal. */
  lemma RepairTouchesOnlyLiterals(source: string, formatted: string)
    requires Applies(source, formatted)
    ensures var result := Repaired(source, formatted);
      && Gaps(result) == Gaps(formatted)
      && Literals(result) == ChooseAll(Literals(source), Literals(formatted))
      && TakesOver(Literals(result), Literals(source), Literals(formatted))
      && AllClean(Literals(result))
  {
    ScanSplits(source);
    ScanSplits(formatted);
    PartsAreClean(Gaps(source), Literals(source));
    ChosenAreClean(Literals(source), Literals(formatted));
    RescanFindsExchanged(formatted, ChooseAll(Literals(source), Literals(formatted)));
  }

  lemma ChosenAreClean(sources: seq<string>, formatted: seq<string>)
    requires |sources| == |formatted| && AllLiterals(sources) && AllLiterals(formatted) && AllClean(sources)
    ensures AllLiterals(ChooseAll(sources, formatted)) && AllClean(ChooseAll(sources, formatted))
  {
  }

  predicate AllClean(parts: seq<string>) {
    forall i :: 0 <= i < |parts| ==> !IsCorrupt(parts[i])
  }

  lemma PartsAreClean(gaps: seq<string>, literals: seq<string>)
    requires |gaps| == |literals| + 1
    ensures !IsCorrupt(Interleave(gaps, literals)) <==> AllClean(gaps) && AllClean(literals)
  {
    var n := |literals|;
    PrefixIsClean(gaps, literals, n);
    assert gaps[..n + 1] == gaps && literals[..n] == literals;
    CleanNext(gaps, n);
  }

  lemma CleanNext(parts: seq<string>, n: nat)
    requires n < |parts|
    ensures AllClean(parts[..n + 1]) <==> AllClean(parts[..n]) && !IsCorrupt(parts[n])
  {
    assert parts[..n + 1][n] == parts[n];
  }

  lemma {:induction false} PrefixIsClean(gaps: seq<string>, literals: seq<string>, n: nat)
    requires n <= |gaps| && n <= |literals|
    ensures !IsCorrupt(Prefix(gaps, literals, n)) <==> AllClean(gaps[..n]) && AllClean(literals[..n])
  {
    if n > 0 {
      PrefixIsClean(gaps, literals, n - 1);
      CleanNext(gaps, n - 1);
      CleanNext(literals, n - 1);
    }
  }

  /** When is a formatted text left alone? When it is not damaged, when the source is, or
      when the two do not have equally many literals. */
  lemma RepairLeavesAlone(source: string, formatted: string)
    requires '\U{FFFD}' !in formatted || '\U{FFFD}' in source || |Literals(source)| != |Literals(formatted)|
    ensures Repaired(source, formatted) == formatted
  {
  }

  /** The result is free of damage exactly when the formatter damaged literals only. */
  lemma RepairIsCompleteIff(source: string, formatted: string)
    requires Applies(source, formatted)
    ensures !IsCorrupt(Repaired(source, formatted)) <==> AllClean(Gaps(formatted))
  {
    RepairTouchesOnlyLiterals(source, formatted);
    PartsAreClean(Gaps(formatted), ChooseAll(Literals(source), Literals(formatted)));
  }

  /** Repairing again changes nothing. */
  lemma RepairIsIdempotent(source: string, formatted: string)
    ensures Repaired(source, Repaired(source, formatted)) == Repaired(source, formatted)
  {
    if Applies(source, formatted) {
      var result := Repaired(source, formatted);
      RepairTouchesOnlyLiterals(source, formatted);
      ScanSplits(result);
      assert Applies(source, result) ==> ChooseAll(Literals(source), Literals(result)) == Literals(result);
    }
  }

  // ----- The loop -----

  datatype Match = Match(index: nat, literal: string)

  /** The literals with their places in the text. */
  function Matches(gaps: seq<string>, literals: seq<string>): (matches: seq<Match>)
    requires |gaps| == |literals| + 1
    ensures |matches| == |literals|
  {
    seq(|literals|, i requires 0 <= i < |literals| => Match(|Prefix(gaps, literals, i)| + |gaps[i]|, literals[i]))
  }

  function MatchAll(s: string): seq<Match> {
    Matches(Gaps(s), Literals(s))
  }

  lemma {:induction false} PrefixesNest(gaps: seq<string>, literals: seq<string>, n: nat)
    requires |gaps| == |literals| + 1 && n <= |literals|
    ensures Prefix(gaps, literals, n) + gaps[n] <= Interleave(gaps, literals)
    decreases |literals| - n
  {
    if n < |literals| {
      PrefixesNest(gaps, literals, n + 1);
    }
  }

  /** Where the text has its gap `n`, and the literal behind it. */
  lemma GapAt(gaps: seq<string>, literals: seq<string>, n: nat)
    requires |gaps| == |literals| + 1 && n <= |literals|
    ensures var whole, at := Interleave(gaps, literals), |Prefix(gaps, literals, n)|;
      at + |gaps[n]| <= |whole| && whole[at..at + |gaps[n]|] == gaps[n]
  {
    PrefixesNest(gaps, literals, n);
    var whole, part := Interleave(gaps, literals), Prefix(gaps, literals, n) + gaps[n];
    var at := |Prefix(gaps, literals, n)|;
    assert whole[..|part|] == part;
    assert whole[at..|part|] == whole[..|part|][at..];
  }

  /** The loop that copies the gaps and chooses the literals. */
  method WriteChosen(formatted: string, sources: seq<string>, ghost gaps: seq<string>, ghost literals: seq<string>, matches: seq<Match>)
      returns (output: string)
    requires |gaps| == |literals| + 1 && |sources| == |literals|
    requires formatted == Interleave(gaps, literals) && matches == Matches(gaps, literals)
    ensures output == Interleave(gaps, ChooseAll(sources, literals))
  {
    output := "";
    var cursor: nat := 0;
    ghost var chosen := ChooseAll(sources, literals);
    for index := 0 to |matches|
      invariant cursor == |Prefix(gaps, literals, index)|
      invariant output == Prefix(gaps, chosen, index)
    {
      GapAt(gaps, literals, index);
      var start, literal := matches[index].index, matches[index].literal;
      output := output + formatted[cursor..start];
      output := output + Choose(sources[index], literal);
      cursor := start + |literal|;
    }
    GapAt(gaps, literals, |literals|);
    output := output + formatted[cursor..];
  }

  method RestoreReplacementCorruptedStringLiterals(source: string, formatted: string) returns (result: string)
    ensures result == Repaired(source, formatted)
    ensures '\U{FFFD}' !in formatted || '\U{FFFD}' in source || |Literals(source)| != |Literals(formatted)| ==>
      result == formatted
    ensures '\U{FFFD}' in formatted && '\U{FFFD}' !in source && |Literals(source)| == |Literals(formatted)| ==>
      Gaps(result) == Gaps(formatted) && TakesOver(Literals(result), Literals(source), Literals(formatted))
  {
    if Applies(source, formatted) {
      RepairTouchesOnlyLiterals(source, formatted);
    }
    if !IsCorrupt(formatted) || IsCorrupt(source) {
      return formatted;
    }
    var sourceLiterals := Literals(source);
    var formattedLiterals := MatchAll(formatted);
    if |sourceLiterals| != |formattedLiterals| {
      return formatted;
    }
    ScanSplits(formatted);
    result := WriteChosen(formatted, sourceLiterals, Gaps(formatted), Literals(formatted), formattedLiterals);
  }
}
