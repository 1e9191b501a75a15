/** The quote-aware scanner that finds a call's closing parenthesis and splits its
    arguments (`scripts/check-temp-path-guardrails.ts`). */
module CallScanner {
  import opened Options
  import opened Sequences
  import opened Text

  predicate IsQuote(c: char) {
    c == '\'' || c == '"' || c == '`'
  }

  // ----- Quotes -----

  datatype Lex = Lex(quote: Option<char>, escaped: bool)

  const CODE := Lex(None, false)

  /** What one character does to the quote state. */
  function LexStep(l: Lex, ch: char): Lex {
    if l.quote.None? then if IsQuote(ch) then Lex(Some(ch), l.escaped) else l
    else if l.escaped then Lex(l.quote, false)
    else if ch == '\\' then Lex(l.quote, true)
    else if ch == l.quote.value then Lex(None, false)
    else l
  }

  function LexAll(s: string): Lex {
    if s == "" then CODE else LexStep(LexAll(s[..|s| - 1]), s[|s| - 1])
  }

  /** Position `i` lies outside every string literal. */
  predicate IsCode(s: string, i: nat)
    requires i <= |s|
  {
    LexAll(s[..i]).quote.None?
  }

  class QuoteScanState {
    var quote: Option<char>
    var escaped: bool

    function Now(): Lex
      reads this
    {
      Lex(quote, escaped)
    }

    constructor ()
      ensures Now() == CODE
    {
      quote, escaped := None, false;
    }

    method BeginQuotedSection(ch: char) returns (began: bool)
      requires quote.None?
      modifies this
      ensures Now() == LexStep(old(Now()), ch)
      ensures began <==> ch == '\'' || ch == '"' || ch == '`'
      ensures quote == if began then Some(ch) else None
    {
      if !IsQuote(ch) {
        return false;
      }
      quote := Some(ch);
      return true;
    }

    method ConsumeQuotedChar(ch: char) returns (consumed: bool)
      modifies this
      ensures consumed == old(quote).Some?
      ensures Now() == if consumed then LexStep(old(Now()), ch) else old(Now())
    {
      if quote.None? {
        return false;
      }
      if escaped {
        escaped := false;
        return true;
      }
      if ch == '\\' {
        escaped := true;
        return true;
      }
      if ch == quote.value {
        quote := None;
      }
      return true;
    }
  }

  // ----- Brackets -----

  /** What one character adds to the depth of one kind of bracket. */
  function Delta(l: Lex, ch: char, open: char, close: char): int {
    if l.quote.Some? then 0 else if ch == open then 1 else if ch == close then -1 else 0
  }

  /** Opening minus closing brackets of one kind, outside string literals. */
  function Depth(s: string, open: char, close: char): int {
    if s == "" then 0
    else
      var before := s[..|s| - 1];
      Depth(before, open, close) + Delta(LexAll(before), s[|s| - 1], open, close)
  }

  /** `i` holds the parenthesis that closes the one at `openIndex`. */
  predicate Closes(source: string, openIndex: nat, i: int) {
    && openIndex < i < |source| && source[i] == ')'
    && LexAll(source[openIndex + 1..i]).quote.None?
    && Depth(source[openIndex + 1..i], '(', ')') == 0
  }

  lemma ScanNext(source: string, from: nat, i: nat)
    requires from <= i < |source|
    ensures LexAll(source[from..i + 1]) == LexStep(LexAll(source[from..i]), source[i])
    ensures Depth(source[from..i + 1], '(', ')') == Depth(source[from..i], '(', ')') + Delta(LexAll(source[from..i]), source[i], '(', ')')
  {
    assert source[from..i + 1][..i - from] == source[from..i];
  }

  /** Finds the first parenthesis that closes the one at `openIndex`. */
  method FindMatchingParen(source: string, openIndex: nat) returns (r: int)
    ensures r >= 0 ==> Closes(source, openIndex, r) && forall i | openIndex < i < r :: !Closes(source, openIndex, i)
    ensures r < 0 ==> r == -1 && forall i | openIndex < i < |source| :: !Closes(source, openIndex, i)
  {
    if openIndex + 1 > |source| {
      return -1;
    }
    var depth := 1;
    var quoteState := new QuoteScanState();
    for i := openIndex + 1 to |source|
      invariant quoteState.Now() == LexAll(source[openIndex + 1..i])
      invariant depth == 1 + Depth(source[openIndex + 1..i], '(', ')')
      invariant forall j | openIndex < j < i :: !Closes(source, openIndex, j)
    {
      var ch := source[i];
      ScanNext(source, openIndex + 1, i);
      var consumed := quoteState.ConsumeQuotedChar(ch);
      if !consumed {
        var began := quoteState.BeginQuotedSection(ch);
        if !began {
          if ch == '(' {
            depth := depth + 1;
          } else if ch == ')' {
            depth := depth - 1;
            if depth == 0 {
              return i;
            }
          }
        }
      }
    }
    return -1;
  }

  // ----- Splitting -----

  datatype Split = Split(lex: Lex, paren: nat, bracket: nat, brace: nat, current: string, out: seq<string>)

  const START := Split(CODE, 0, 0, 0, "", [])

  function Less(depth: nat): nat {
    if depth > 0 then depth - 1 else 0
  }

  function SplitStep(s: Split, ch: char): Split {
    var t := s.(lex := LexStep(s.lex, ch), current := s.current + [ch]);
    if s.lex.quote.Some? || IsQuote(ch) then t
    else if ch == '(' then t.(paren := s.paren + 1)
    else if ch == ')' then t.(paren := Less(s.paren))
    else if ch == '[' then t.(bracket := s.bracket + 1)
    else if ch == ']' then t.(bracket := Less(s.bracket))
    else if ch == '{' then t.(brace := s.brace + 1)
    else if ch == '}' then t.(brace := Less(s.brace))
    else if ch == ',' && s.paren == s.bracket == s.brace == 0 then
      s.(out := s.out + [Trim(s.current)], current := "")
    else t
  }

  function SplitFrom(s: Split, text: string): Split {
    if text == "" then s else SplitStep(SplitFrom(s, text[..|text| - 1]), text[|text| - 1])
  }

  function Conclude(s: Split): seq<string> {
    if Trim(s.current) != "" then s.out + [Trim(s.current)] else s.out
  }

  function TopLevelArguments(source: string): seq<string> {
    Conclude(SplitFrom(START, source))
  }

  method SplitTopLevelArguments(source: string) returns (out: seq<string>)
    ensures out == TopLevelArguments(source)
  {
    out := [];
    var current := "";
    var parenDepth, bracketDepth, braceDepth: nat := 0, 0, 0;
    var quoteState := new QuoteScanState();
    for i := 0 to |source|
      invariant Split(quoteState.Now(), parenDepth, bracketDepth, braceDepth, current, out) == SplitFrom(START, source[..i])
    {
      var ch := source[i];
      assert source[..i + 1][..i] == source[..i];
      if quoteState.quote.Some? {
        current := current + [ch];
        var _ := quoteState.ConsumeQuotedChar(ch);
      } else {
        var began := quoteState.BeginQuotedSection(ch);
        if began {
          current := current + [ch];
        } else if ch == '(' {
          parenDepth := parenDepth + 1;
          current := current + [ch];
        } else if ch == ')' {
          if parenDepth > 0 {
            parenDepth := parenDepth - 1;
          }
          current := current + [ch];
        } else if ch == '[' {
          bracketDepth := bracketDepth + 1;
          current := current + [ch];
        } else if ch == ']' {
          if bracketDepth > 0 {
            bracketDepth := bracketDepth - 1;
          }
          current := current + [ch];
        } else if ch == '{' {
          braceDepth := braceDepth + 1;
          current := current + [ch];
        } else if ch == '}' {
          if braceDepth > 0 {
            braceDepth := braceDepth - 1;
          }
          current := current + [ch];
        } else if ch == ',' && parenDepth == 0 && bracketDepth == 0 && braceDepth == 0 {
          out := out + [Trim(current)];
          current := "";
        } else {
          current := current + [ch];
        }
      }
    }
    assert source[..|source|] == source;
    if Trim(current) != "" {
      out := out + [Trim(current)];
    }
  }

  // ----- Self-contained arguments -----

  /** Quotes are closed and brackets of this kind match. */
  ghost predicate Balanced(s: string, open: char, close: char) {
    && LexAll(s) == CODE
    && (forall i :: 0 <= i <= |s| ==> Depth(s[..i], open, close) >= 0)
    && Depth(s, open, close) == 0
  }

  ghost predicate Nested(s: string) {
    Balanced(s, '(', ')') && Balanced(s, '[', ']') && Balanced(s, '{', '}')
  }

  /** No comma of `s` separates arguments. */
  ghost predicate NoOuterComma(s: string) {
    forall i :: 0 <= i < |s| && s[i] == ',' && IsCode(s, i) ==>
      Depth(s[..i], '(', ')') > 0 || Depth(s[..i], '[', ']') > 0 || Depth(s[..i], '{', '}') > 0
  }

  ghost predicate SelfContained(s: string) {
    Nested(s) && NoOuterComma(s) && !IsBlank(s) && IsTrimmed(s)
  }

  ghost predicate AllSelfContained(args: seq<string>) {
    forall i {:trigger SelfContained(args[i])} :: 0 <= i < |args| ==> SelfContained(args[i])
  }

  lemma TailIsSelfContained(args: seq<string>)
    requires args != [] && AllSelfContained(args)
    ensures SelfContained(args[0]) && AllSelfContained(args[1..])
  {
    forall i | 0 <= i < |args[1..]|
      ensures SelfContained(args[1..][i])
    {
      assert SelfContained(args[i + 1]);
    }
  }

  lemma {:induction false} LexConcat(a: string, b: string)
    requires LexAll(a) == CODE
    ensures LexAll(a + b) == LexAll(b)
  {
    if b == "" {
      assert a + b == a;
    } else {
      assert (a + b)[..|a + b| - 1] == a + b[..|b| - 1];
      LexConcat(a, b[..|b| - 1]);
    }
  }

  lemma {:induction false} DepthConcat(a: string, b: string, open: char, close: char)
    requires LexAll(a) == CODE
    ensures Depth(a + b, open, close) == Depth(a, open, close) + Depth(b, open, close)
  {
    if b == "" {
      assert a + b == a;
    } else {
      assert (a + b)[..|a + b| - 1] == a + b[..|b| - 1];
      LexConcat(a, b[..|b| - 1]);
      DepthConcat(a, b[..|b| - 1], open, close);
    }
  }

  lemma BalancedConcat(a: string, b: string, open: char, close: char)
    requires Balanced(a, open, close) && Balanced(b, open, close)
    ensures Balanced(a + b, open, close)
  {
    LexConcat(a, b);
    DepthConcat(a, b, open, close);
    forall i | 0 <= i <= |a + b|
      ensures Depth((a + b)[..i], open, close) >= 0
    {
      if i <= |a| {
        assert (a + b)[..i] == a[..i];
      } else {
        assert (a + b)[..i] == a + b[..i - |a|];
        DepthConcat(a, b[..i - |a|], open, close);
      }
    }
  }

  lemma SeparatorIsBalanced(open: char, close: char)
    requires open !in ", " && close !in ", "
    ensures Balanced(", ", open, close)
  {
    assert ", "[..2] == ", " && ", "[..1] == "," && ","[..0] == "" && ", "[..0] == "";
    assert LexAll(",") == CODE && Depth(",", open, close) == 0;
  }

  lemma {:induction false} JoinIsBalanced(args: seq<string>, open: char, close: char)
    requires open !in ", " && close !in ", "
    requires forall arg <- args :: Balanced(arg, open, close)
    ensures Balanced(Join(args, ", "), open, close)
  {
    if |args| > 1 {
      JoinIsBalanced(args[1..], open, close);
      SeparatorIsBalanced(open, close);
      BalancedConcat(args[0], ", ", open, close);
      BalancedConcat(args[0] + ", ", Join(args[1..], ", "), open, close);
    }
  }

  // ----- Self-contained by construction -----

  datatype Unit = Raw(c: char) | Escape(c: char)
  datatype Token = Plain(c: char) | Quoted(quote: char, body: seq<Unit>) | Group(open: char, inner: seq<Token>)

  const BRACKETS := "()[]{}"

  function Closer(open: char): char {
    if open == '(' then ')' else if open == '[' then ']' else '}'
  }

  predicate IsUnit(u: Unit, quote: char) {
    u.Raw? ==> u.c != quote && u.c != '\\'
  }

  predicate IsToken(t: Token) {
    match t
    case Plain(c) => !IsQuote(c) && c !in BRACKETS
    case Quoted(quote, body) => IsQuote(quote) && forall i :: 0 <= i < |body| ==> IsUnit(body[i], quote)
    case Group(open, inner) => open in "([{" && AreTokens(inner)
  }

  predicate AreTokens(tokens: seq<Token>) {
    forall i :: 0 <= i < |tokens| ==> IsToken(tokens[i])
  }

  function UnitText(u: Unit): string {
    if u.Raw? then [u.c] else ['\\', u.c]
  }

  function BodyText(body: seq<Unit>): string {
    if body == [] then "" else BodyText(body[..|body| - 1]) + UnitText(body[|body| - 1])
  }

  function TokenText(t: Token): string {
    match t
    case Plain(c) => [c]
    case Quoted(quote, body) => [quote] + BodyText(body) + [quote]
    case Group(open, inner) => [open] + Written(inner) + [Closer(open)]
  }

  function Written(tokens: seq<Token>): string {
    if tokens == [] then "" else Written(tokens[..|tokens| - 1]) + TokenText(tokens[|tokens| - 1])
  }

  /** Inside the quotes from the first character on. */
  ghost predicate StaysQuoted(s: string) {
    s != "" && forall i :: 0 < i <= |s| ==> LexAll(s[..i]).quote == Some(s[0])
  }

  lemma LexNext(s: string, c: char)
    ensures LexAll(s + [c]) == LexStep(LexAll(s), c)
  {
    assert (s + [c])[..|s|] == s;
  }

  lemma StaysQuotedNext(s: string, c: char)
    requires StaysQuoted(s) && LexStep(LexAll(s), c).quote == Some(s[0])
    ensures StaysQuoted(s + [c])
  {
    LexNext(s, c);
    var t := s + [c];
    forall i | 0 < i <= |t|
      ensures LexAll(t[..i]).quote == Some(s[0])
    {
      assert t[..i] == if i <= |s| then s[..i] else t;
    }
  }

  lemma UnitStaysQuoted(s: string, u: Unit)
    requires StaysQuoted(s) && IsQuote(s[0]) && !LexAll(s).escaped && IsUnit(u, s[0])
    ensures StaysQuoted(s + UnitText(u)) && !LexAll(s + UnitText(u)).escaped
  {
    assert s[..|s|] == s;
    if u.Raw? {
      StaysQuotedNext(s, u.c);
      LexNext(s, u.c);
    } else {
      StaysQuotedNext(s, '\\');
      LexNext(s, '\\');
      StaysQuotedNext(s + ['\\'], u.c);
      LexNext(s + ['\\'], u.c);
      assert s + UnitText(u) == s + ['\\'] + [u.c];
    }
  }

  lemma OpenQuote(quote: char)
    requires IsQuote(quote)
    ensures StaysQuoted([quote]) && !LexAll([quote]).escaped
  {
    assert [quote][..0] == "" && [quote][..1] == [quote];
  }

  lemma {:induction false} BodyStaysQuoted(quote: char, body: seq<Unit>)
    requires IsQuote(quote) && forall i :: 0 <= i < |body| ==> IsUnit(body[i], quote)
    ensures StaysQuoted([quote] + BodyText(body)) && !LexAll([quote] + BodyText(body)).escaped
  {
    if body == [] {
      OpenQuote(quote);
      assert [quote] + "" == [quote];
    } else {
      var n := |body| - 1;
      BodyStaysQuoted(quote, body[..n]);
      UnitStaysQuoted([quote] + BodyText(body[..n]), body[n]);
      ConcatIsAssociative([quote], BodyText(body[..n]), UnitText(body[n]));
    }
  }

  lemma QuotedHoldsNoCode(quote: char, body: seq<Unit>, i: nat)
    requires IsToken(Quoted(quote, body)) && 0 < i < |TokenText(Quoted(quote, body))|
    ensures !IsCode(TokenText(Quoted(quote, body)), i)
  {
    BodyStaysQuoted(quote, body);
    var s := [quote] + BodyText(body);
    assert (s + [quote])[..i] == s[..i];
  }

  lemma {:induction false} NoDepthInQuotes(s: string, i: nat, open: char, close: char)
    requires StaysQuoted(s) && s[0] != open && s[0] != close && i <= |s|
    ensures Depth(s[..i], open, close) == 0
  {
    if i > 0 {
      NoDepthInQuotes(s, i - 1, open, close);
      assert s[..i][..i - 1] == s[..i - 1];
      assert i == 1 ==> s[..0] == "";
    }
  }

  lemma QuotedIsBalanced(quote: char, body: seq<Unit>, open: char, close: char)
    requires IsToken(Quoted(quote, body)) && !IsQuote(open) && !IsQuote(close)
    ensures Balanced(TokenText(Quoted(quote, body)), open, close)
  {
    var s := [quote] + BodyText(body);
    BodyStaysQuoted(quote, body);
    LexNext(s, quote);
    assert s[..|s|] == s;
    var whole := s + [quote];
    forall i | 0 <= i <= |whole|
      ensures Depth(whole[..i], open, close) == 0
    {
      if i <= |s| {
        NoDepthInQuotes(s, i, open, close);
        assert whole[..i] == s[..i];
      } else {
        NoDepthInQuotes(s, |s|, open, close);
        assert whole[..i] == whole && whole[..|s|] == s;
      }
    }
    assert whole[..|whole|] == whole;
  }

  lemma OneIsBalanced(c: char, open: char, close: char)
    requires !IsQuote(c) && c != open && c != close
    ensures Balanced([c], open, close)
  {
    assert [c][..1] == [c] && [c][..0] == "";
  }

  lemma GroupDepth(open: char, inner: string, close: char, i: nat)
    requires open in "([{" && close == Closer(open) && Balanced(inner, open, close) && i <= |inner|
    ensures Depth(([open] + inner + [close])[..i + 1], open, close) == 1 + Depth(inner[..i], open, close) >= 1
  {
    assert [open][..1] == [open] && [open][..0] == "";
    assert ([open] + inner + [close])[..i + 1] == [open] + inner[..i];
    DepthConcat([open], inner[..i], open, close);
  }

  lemma GroupIsBalanced(open: char, inner: string, close: char)
    requires open in "([{" && close == Closer(open) && Balanced(inner, open, close)
    ensures Balanced([open] + inner + [close], open, close)
  {
    var s := [open] + inner + [close];
    assert [open][..1] == [open] && [open][..0] == "";
    assert s == [open] + (inner + [close]);
    LexConcat([open], inner + [close]);
    LexNext(inner, close);
    assert s[..|s|] == s && s[..|inner| + 1] == [open] + inner;
    assert inner[..|inner|] == inner;
    GroupDepth(open, inner, close, |inner|);
    LexConcat([open], inner);
    forall i | 0 <= i <= |s|
      ensures Depth(s[..i], open, close) >= 0
    {
      if 0 < i <= |inner| + 1 {
        GroupDepth(open, inner, close, i - 1);
      }
    }
  }

  lemma {:induction false} TokensAreBalanced(tokens: seq<Token>, open: char, close: char)
    requires AreTokens(tokens) && open in "([{" && close == Closer(open)
    ensures Balanced(Written(tokens), open, close)
    decreases tokens
  {
    if tokens != [] {
      var n := |tokens| - 1;
      TokensAreBalanced(tokens[..n], open, close);
      TokenIsBalanced(tokens[n], open, close);
      BalancedConcat(Written(tokens[..n]), TokenText(tokens[n]), open, close);
    }
  }

  lemma {:induction false} TokenIsBalanced(t: Token, open: char, close: char)
    requires IsToken(t) && open in "([{" && close == Closer(open)
    ensures Balanced(TokenText(t), open, close)
    decreases t
  {
    match t
    case Plain(c) =>
      OneIsBalanced(c, open, close);
    case Quoted(quote, body) =>
      QuotedIsBalanced(quote, body, open, close);
    case Group(o, inner) =>
      TokensAreBalanced(inner, open, close);
      if o == open {
        GroupIsBalanced(open, Written(inner), close);
      } else {
        OneIsBalanced(o, open, close);
        OneIsBalanced(Closer(o), open, close);
        BalancedConcat([o], Written(inner), open, close);
        BalancedConcat([o] + Written(inner), [Closer(o)], open, close);
      }
  }

  lemma TokensAreNested(tokens: seq<Token>)
    requires AreTokens(tokens)
    ensures Nested(Written(tokens))
  {
    TokensAreBalanced(tokens, '(', ')');
    TokensAreBalanced(tokens, '[', ']');
    TokensAreBalanced(tokens, '{', '}');
  }

  lemma NoOuterCommaConcat(a: string, b: string)
    requires Nested(a) && NoOuterComma(a) && NoOuterComma(b)
    ensures NoOuterComma(a + b)
  {
    var s := a + b;
    forall i | 0 <= i < |s| && s[i] == ',' && IsCode(s, i)
      ensures Depth(s[..i], '(', ')') > 0 || Depth(s[..i], '[', ']') > 0 || Depth(s[..i], '{', '}') > 0
    {
      if i < |a| {
        assert s[..i] == a[..i];
      } else {
        var k := i - |a|;
        assert s[..i] == a + b[..k];
        LexConcat(a, b[..k]);
        DepthConcat(a, b[..k], '(', ')');
        DepthConcat(a, b[..k], '[', ']');
        DepthConcat(a, b[..k], '{', '}');
        assert b[k] == ',' && IsCode(b, k);
      }
    }
  }

  lemma TokenHasNoOuterComma(t: Token)
    requires IsToken(t) && t != Plain(',')
    ensures NoOuterComma(TokenText(t))
  {
    var s := TokenText(t);
    forall i | 0 <= i < |s| && s[i] == ',' && IsCode(s, i)
      ensures Depth(s[..i], '(', ')') > 0 || Depth(s[..i], '[', ']') > 0 || Depth(s[..i], '{', '}') > 0
    {
      match t
      case Quoted(quote, body) =>
        if i > 0 {
          QuotedHoldsNoCode(quote, body, i);
        }
      case Group(open, inner) =>
        TokensAreBalanced(inner, open, Closer(open));
        GroupDepth(open, Written(inner), Closer(open), i - 1);
    }
  }

  /** Text built of plain characters, closed quotes and closed brackets, with no
      comma at the top, is a self-contained argument. */
  lemma {:induction false} TokensAreSelfContained(tokens: seq<Token>)
    requires AreTokens(tokens) && Plain(',') !in tokens
    ensures Nested(Written(tokens)) && NoOuterComma(Written(tokens))
    ensures SelfContained(Written(tokens)) <==> !IsBlank(Written(tokens)) && IsTrimmed(Written(tokens))
  {
    TokensAreNested(tokens);
    if tokens != [] {
      var n := |tokens| - 1;
      TokensAreSelfContained(tokens[..n]);
      TokenHasNoOuterComma(tokens[n]);
      NoOuterCommaConcat(Written(tokens[..n]), TokenText(tokens[n]));
    }
  }

  lemma {:induction false} SplitConcat(s: Split, a: string, b: string)
    ensures SplitFrom(s, a + b) == SplitFrom(SplitFrom(s, a), b)
  {
    if b == "" {
      assert a + b == a;
    } else {
      assert (a + b)[..|a + b| - 1] == a + b[..|b| - 1];
      SplitConcat(s, a, b[..|b| - 1]);
    }
  }

  /** Between arguments, with `current` read since the last comma. */
  function Between(current: string, out: seq<string>): Split {
    Split(CODE, 0, 0, 0, current, out)
  }

  lemma ReadsOne(s: Split, ch: char)
    requires s.paren + Delta(s.lex, ch, '(', ')') >= 0
    requires s.bracket + Delta(s.lex, ch, '[', ']') >= 0
    requires s.brace + Delta(s.lex, ch, '{', '}') >= 0
    requires ch == ',' && s.lex.quote.None? ==> s.paren > 0 || s.bracket > 0 || s.brace > 0
    ensures SplitStep(s, ch)
         == Split(LexStep(s.lex, ch), s.paren + Delta(s.lex, ch, '(', ')'), s.bracket + Delta(s.lex, ch, '[', ']'),
                  s.brace + Delta(s.lex, ch, '{', '}'), s.current + [ch], s.out)
  {
  }

  /** The next character of a self-contained argument closes no bracket that is not
      open, and is no separating comma. */
  lemma NextIsInside(arg: string, i: nat)
    requires Nested(arg) && NoOuterComma(arg) && i < |arg|
    ensures var before, l := arg[..i], LexAll(arg[..i]);
      && LexAll(arg[..i + 1]) == LexStep(l, arg[i])
      && (var p, k, c := Depth(before, '(', ')'), Depth(before, '[', ']'), Depth(before, '{', '}');
          && p >= 0 && k >= 0 && c >= 0
          && Depth(arg[..i + 1], '(', ')') == p + Delta(l, arg[i], '(', ')') >= 0
          && Depth(arg[..i + 1], '[', ']') == k + Delta(l, arg[i], '[', ']') >= 0
          && Depth(arg[..i + 1], '{', '}') == c + Delta(l, arg[i], '{', '}') >= 0
          && (arg[i] == ',' && l.quote.None? ==> p > 0 || k > 0 || c > 0))
  {
    assert arg[..i + 1][..i] == arg[..i];
  }

  lemma SplitNext(s: Split, text: string, i: nat)
    requires i < |text|
    ensures SplitFrom(s, text[..i + 1]) == SplitStep(SplitFrom(s, text[..i]), text[i])
  {
    assert text[..i + 1][..i] == text[..i];
  }

  lemma AppendNext(current: string, text: string, i: nat)
    requires i < |text|
    ensures current + text[..i + 1] == current + text[..i] + [text[i]]
  {
  }

  /** The state after the first `i` characters of an argument. */
  ghost function Reading(current: string, out: seq<string>, arg: string, i: nat): Split
    requires Nested(arg) && i <= |arg|
  {
    Split(LexAll(arg[..i]), Depth(arg[..i], '(', ')'), Depth(arg[..i], '[', ']'), Depth(arg[..i], '{', '}'),
          current + arg[..i], out)
  }

  lemma ReadsNext(current: string, out: seq<string>, arg: string, i: nat)
    requires Nested(arg) && NoOuterComma(arg) && i < |arg|
    ensures Reading(current, out, arg, i + 1) == SplitStep(Reading(current, out, arg, i), arg[i])
  {
    NextIsInside(arg, i);
    ReadsOne(Reading(current, out, arg, i), arg[i]);
    AppendNext(current, arg, i);
  }

  /** Reading a piece of a self-contained argument only appends to `current`. */
  lemma {:induction false} ReadsPart(current: string, out: seq<string>, arg: string, i: nat)
    requires Nested(arg) && NoOuterComma(arg) && i <= |arg|
    ensures SplitFrom(Between(current, out), arg[..i]) == Reading(current, out, arg, i)
  {
    if i == 0 {
      assert current + "" == current;
    } else {
      ReadsPart(current, out, arg, i - 1);
      ReadsNext(current, out, arg, i - 1);
      SplitNext(Between(current, out), arg, i - 1);
    }
  }

  lemma ReadsArgument(current: string, out: seq<string>, arg: string)
    requires SelfContained(arg)
    ensures SplitFrom(Between(current, out), arg) == Between(current + arg, out)
  {
    ReadsPart(current, out, arg, |arg|);
    assert arg[..|arg|] == arg;
  }

  lemma SplitOne(s: Split, ch: char)
    ensures SplitFrom(s, [ch]) == SplitStep(s, ch)
  {
    assert [ch][..0] == "" && SplitFrom(s, "") == s;
  }

  lemma ReadsSeparator(current: string, out: seq<string>)
    ensures SplitFrom(Between(current, out), ", ") == Between(" ", out + [Trim(current)])
  {
    SplitOne(Between(current, out), ',');
    SplitOne(Between("", out + [Trim(current)]), ' ');
    SplitConcat(Between(current, out), ",", " ");
    assert ", " == "," + " " && "" + " " == " ";
  }

  lemma TrimArgument(arg: string)
    requires IsTrimmed(arg) && !IsBlank(arg)
    ensures Trim(arg) == arg && Trim(" " + arg) == arg
  {
    assert (" " + arg)[1..] == arg;
  }

  /** One argument and the separator behind it. */
  lemma ReadsArgumentAndSeparator(current: string, out: seq<string>, arg: string, rest: string)
    requires SelfContained(arg) && (current == "" || current == " ")
    ensures SplitFrom(Between(current, out), arg + ", " + rest) == SplitFrom(Between(" ", out + [arg]), rest)
  {
    ReadsArgument(current, out, arg);
    TrimArgument(arg);
    assert "" + arg == arg;
    SplitConcat(Between(current, out), arg, ", ");
    SplitConcat(Between(current, out), arg + ", ", rest);
    ReadsSeparator(current + arg, out);
  }

  lemma {:induction false} ReadsAll(current: string, out: seq<string>, args: seq<string>)
    requires args != [] && AllSelfContained(args)
    requires current == "" || current == " "
    ensures var last := |args| - 1;
      SplitFrom(Between(current, out), Join(args, ", "))
      == Between((if last == 0 then current else " ") + args[last], out + args[..last])
    decreases |args|
  {
    var arg, rest := args[0], args[1..];
    TailIsSelfContained(args);
    if rest == [] {
      ReadsArgument(current, out, arg);
      assert out + args[..0] == out;
    } else {
      ReadsArgumentAndSeparator(current, out, arg, Join(rest, ", "));
      ReadsAll(" ", out + [arg], rest);
      MoveFirst(out, args);
    }
  }

  lemma MoveFirst<T>(out: seq<T>, args: seq<T>)
    requires |args| > 1
    ensures out + [args[0]] + args[1..][..|args[1..]| - 1] == out + args[..|args| - 1]
    ensures args[1..][|args[1..]| - 1] == args[|args| - 1]
  {
  }

  lemma ConcludesWith(lead: string, out: seq<string>, last: string)
    requires IsTrimmed(last) && !IsBlank(last) && (lead == "" || lead == " ")
    ensures Conclude(Between(lead + last, out)) == out + [last]
  {
    TrimArgument(last);
    assert "" + last == last;
  }

  lemma FrontAndLast<T>(s: seq<T>)
    requires s != []
    ensures [] + s[..|s| - 1] + [s[|s| - 1]] == s
  {
  }

  /** Splitting undoes joining, for every list of self-contained arguments. */
  lemma SplitUndoesJoin(args: seq<string>)
    requires AllSelfContained(args)
    ensures TopLevelArguments(Join(args, ", ")) == args
  {
    if args != [] {
      var n := |args| - 1;
      ReadsAll("", [], args);
      assert SelfContained(args[n]);
      ConcludesWith(if n == 0 then "" else " ", [] + args[..n], args[n]);
      FrontAndLast(args);
    }
  }

  /** A call's closing parenthesis is the one after its arguments, whatever stands
      before and behind the call; nothing earlier closes it. */
  lemma CallIsFound(before: string, args: seq<string>, tail: string)
    requires AllSelfContained(args)
    ensures var inside := Join(args, ", ");
      var source := before + "(" + inside + ")" + tail;
      var close := |before| + 1 + |inside|;
      && Closes(source, |before|, close)
      && forall i | |before| < i < close :: !Closes(source, |before|, i)
  {
    var inside := Join(args, ", ");
    var source := before + "(" + inside + ")" + tail;
    var close := |before| + 1 + |inside|;
    forall i | 0 <= i < |args|
      ensures Balanced(args[i], '(', ')')
    {
      assert SelfContained(args[i]) && Nested(args[i]);
    }
    JoinIsBalanced(args, '(', ')');
    assert source[|before| + 1..close] == inside && source[close] == ')';
    forall i | |before| < i < close
      ensures !Closes(source, |before|, i)
    {
      var k := i - |before| - 1;
      assert source[|before| + 1..i] == inside[..k] && source[i] == inside[k];
      assert inside[..k + 1][..k] == inside[..k];
      assert Depth(inside[..k + 1], '(', ')') >= 0;
    }
  }

  lemma InsideParens(before: string, inside: string, tail: string)
    ensures (before + "(" + inside + ")" + tail)[|before| + 1..|before| + 1 + |inside|] == inside
  {
  }

  /** What a search for the first match from the opening parenthesis of `source` finds. */
  ghost predicate IsFirstMatch(source: string, openIndex: nat, r: int) {
    && (r >= 0 ==> Closes(source, openIndex, r) && forall i | openIndex < i < r :: !Closes(source, openIndex, i))
    && (r < 0 ==> forall i | openIndex < i < |source| :: !Closes(source, openIndex, i))
  }

  lemma FirstMatchIs(source: string, openIndex: nat, expected: nat, r: int)
    requires Closes(source, openIndex, expected)
    requires forall i | openIndex < i < expected :: !Closes(source, openIndex, i)
    requires IsFirstMatch(source, openIndex, r)
    ensures r == expected
  {
  }

  /** A call around `args`, with text before and behind it. */
  function CallText(before: string, args: seq<string>, tail: string): string {
    before + "(" + Join(args, ", ") + ")" + tail
  }

  lemma FoundCallIs(before: string, args: seq<string>, tail: string, r: int)
    requires AllSelfContained(args) && IsFirstMatch(CallText(before, args, tail), |before|, r)
    ensures r == |before| + 1 + |Join(args, ", ")|
  {
    CallIsFound(before, args, tail);
    FirstMatchIs(CallText(before, args, tail), |before|, |before| + 1 + |Join(args, ", ")|, r);
  }

  lemma InsideCall(before: string, args: seq<string>, tail: string, r: int)
    requires r == |before| + 1 + |Join(args, ", ")|
    ensures |before| < r < |CallText(before, args, tail)|
    ensures CallText(before, args, tail)[|before| + 1..r] == Join(args, ", ")
  {
    InsideParens(before, Join(args, ", "), tail);
  }

  /** So the first match is that parenthesis, and the text inside splits into the arguments. */
  method ReadCall(before: string, args: seq<string>, tail: string) returns (found: seq<string>)
    requires AllSelfContained(args)
    ensures found == args
  {
    var source := CallText(before, args, tail);
    var close := FindMatchingParen(source, |before|);
    FoundCallIs(before, args, tail, close);
    InsideCall(before, args, tail, close);
    found := SplitTopLevelArguments(source[|before| + 1..close]);
    SplitUndoesJoin(args);
  }

  // ----- Splitting any text -----

  /** No bracket of this kind stands open at the end of `s`, if a closing bracket that
      nothing matches is passed over: the depth is the lowest so far. */
  ghost predicate NoneOpen(s: string, open: char, close: char) {
    forall j :: 0 <= j <= |s| ==> Depth(s, open, close) <= Depth(s[..j], open, close)
  }

  /** Position `p` holds a comma outside all string literals and brackets. */
  ghost predicate Separates(source: string, p: int) {
    && 0 <= p < |source| && source[p] == ',' && IsCode(source, p)
    && NoneOpen(source[..p], '(', ')') && NoneOpen(source[..p], '[', ']') && NoneOpen(source[..p], '{', '}')
  }

  /** How far the depth is, at the end of `s`, above that after the first `j` characters. */
  function Climb(s: string, j: nat, open: char, close: char): int
    requires j <= |s|
  {
    Depth(s, open, close) - Depth(s[..j], open, close)
  }

  /** How many brackets are open at the end of `s`. */
  ghost predicate OpenAtEnd(s: string, open: char, close: char, n: nat) {
    && (forall j :: 0 <= j <= |s| ==> Climb(s, j, open, close) <= n)
    && (exists j :: 0 <= j <= |s| && Climb(s, j, open, close) == n)
  }

  lemma ClimbNext(s: string, ch: char, j: nat, open: char, close: char)
    requires j <= |s| + 1
    ensures Climb(s + [ch], j, open, close) == if j > |s| then 0 else Climb(s, j, open, close) + Delta(LexAll(s), ch, open, close)
  {
    var t := s + [ch];
    if j <= |s| {
      assert t[..j] == s[..j] && t[..|s|] == s;
    } else {
      assert t[..j] == t;
    }
  }

  lemma OpenAtEndNext(s: string, ch: char, open: char, close: char, n: nat)
    requires OpenAtEnd(s, open, close, n)
    ensures OpenAtEnd(s + [ch], open, close, Less(n + 1 + Delta(LexAll(s), ch, open, close)))
  {
    var t := s + [ch];
    forall j | 0 <= j <= |t|
      ensures Climb(t, j, open, close) == if j > |s| then 0 else Climb(s, j, open, close) + Delta(LexAll(s), ch, open, close)
    {
      ClimbNext(s, ch, j, open, close);
    }
    var j :| 0 <= j <= |s| && Climb(s, j, open, close) == n;
    assert Climb(t, j, open, close) == n + Delta(LexAll(s), ch, open, close);
    assert Climb(t, |t|, open, close) == 0;
  }

  lemma NoneOpenIff(s: string, open: char, close: char, n: nat)
    requires OpenAtEnd(s, open, close, n)
    ensures NoneOpen(s, open, close) <==> n == 0
  {
    var k :| 0 <= k <= |s| && Climb(s, k, open, close) == n;
    if n == 0 {
      forall j | 0 <= j <= |s|
        ensures Depth(s, open, close) <= Depth(s[..j], open, close)
      {
        assert Climb(s, j, open, close) <= 0;
      }
    }
  }

  ghost predicate Tracks(s: Split, source: string) {
    && s.lex == LexAll(source)
    && OpenAtEnd(source, '(', ')', s.paren) && OpenAtEnd(source, '[', ']', s.bracket) && OpenAtEnd(source, '{', '}', s.brace)
  }

  /** Does the splitter cut at this character? */
  predicate CutsAt(s: Split, ch: char) {
    ch == ',' && s.lex.quote.None? && s.paren == s.bracket == s.brace == 0
  }

  lemma StepChanges(s: Split, ch: char)
    ensures var t := SplitStep(s, ch);
      && t.lex == LexStep(s.lex, ch) && t.paren == Less(s.paren + 1 + Delta(s.lex, ch, '(', ')'))
      && t.bracket == Less(s.bracket + 1 + Delta(s.lex, ch, '[', ']')) && t.brace == Less(s.brace + 1 + Delta(s.lex, ch, '{', '}'))
      && t.current == (if CutsAt(s, ch) then "" else s.current + [ch])
      && t.out == (if CutsAt(s, ch) then s.out + [Trim(s.current)] else s.out)
  {
  }

  lemma StepTracks(s: Split, source: string, ch: char)
    requires Tracks(s, source)
    ensures Tracks(SplitStep(s, ch), source + [ch])
    ensures Separates(source + [ch], |source|) <==> CutsAt(s, ch)
  {
    StepChanges(s, ch);
    LexNext(source, ch);
    OpenAtEndNext(source, ch, '(', ')', s.paren);
    OpenAtEndNext(source, ch, '[', ']', s.bracket);
    OpenAtEndNext(source, ch, '{', '}', s.brace);
    SeparatesBefore(source, ch, 0);
    NoneOpenIff(source, '(', ')', s.paren);
    NoneOpenIff(source, '[', ']', s.bracket);
    NoneOpenIff(source, '{', '}', s.brace);
  }

  /** Where the comma behind piece `k` stands. */
  function CommaBehind(pieces: seq<string>, k: nat): nat
    requires k < |pieces|
  {
    |Join(pieces[..k + 1], ",")|
  }

  predicate IsCommaOf(pieces: seq<string>, p: int) {
    exists k :: 0 <= k < |pieces| - 1 && CommaBehind(pieces, k) == p
  }

  /** The pieces are the source cut at every separating comma, and only there. */
  ghost predicate AreCut(source: string, pieces: seq<string>) {
    && pieces != [] && Join(pieces, ",") == source
    && forall p :: Separates(source, p) <==> IsCommaOf(pieces, p)
  }

  lemma {:induction false} JoinLast(pieces: seq<string>, last: string, separator: string)
    ensures Join(pieces + [last], separator) == if pieces == [] then last else Join(pieces, separator) + separator + last
  {
    if |pieces| == 1 {
      assert (pieces + [last])[1..] == [last];
    } else if |pieces| > 1 {
      assert (pieces + [last])[1..] == pieces[1..] + [last];
      JoinLast(pieces[1..], last, separator);
      assert pieces[0] + separator + (Join(pieces[1..], separator) + separator + last)
          == pieces[0] + separator + Join(pieces[1..], separator) + separator + last;
    }
  }

  lemma SeparatesBefore(source: string, ch: char, p: int)
    ensures p < |source| ==> (Separates(source + [ch], p) <==> Separates(source, p))
    ensures Separates(source + [ch], |source|) <==>
      && ch == ',' && LexAll(source).quote.None?
      && NoneOpen(source, '(', ')') && NoneOpen(source, '[', ']') && NoneOpen(source, '{', '}')
    ensures Separates(source + [ch], p) ==> p <= |source|
  {
    assert (source + [ch])[..|source|] == source;
    if 0 <= p < |source| {
      assert (source + [ch])[..p] == source[..p];
    }
  }

  lemma CommasOfMore(front: seq<string>, last: string, rest: seq<string>, p: int)
    ensures IsCommaOf(front + [last] + rest, p) <==>
      IsCommaOf(front + [last], p) || (exists k :: |front| <= k < |front| + |rest| && CommaBehind(front + [last] + rest, k) == p)
  {
    var pieces, more := front + [last], front + [last] + rest;
    forall k | 0 <= k < |pieces|
      ensures CommaBehind(more, k) == CommaBehind(pieces, k)
    {
      assert more[..k + 1] == pieces[..k + 1];
    }
    if IsCommaOf(pieces, p) {
      var k :| 0 <= k < |front| && CommaBehind(pieces, k) == p;
      assert CommaBehind(more, k) == p;
    }
    if IsCommaOf(more, p) {
      var k :| 0 <= k < |more| - 1 && CommaBehind(more, k) == p;
      assert k < |front| ==> CommaBehind(pieces, k) == p;
    }
  }

  /** Only the pieces before the last one have commas behind them. */
  lemma LastHasNoComma(front: seq<string>, last: string, other: string, p: int)
    ensures IsCommaOf(front + [last], p) <==> IsCommaOf(front + [other], p)
  {
    var a, b := front + [last], front + [other];
    forall k | 0 <= k < |front|
      ensures CommaBehind(a, k) == CommaBehind(b, k)
    {
      assert a[..k + 1] == b[..k + 1];
    }
    if IsCommaOf(a, p) {
      var k :| 0 <= k < |front| && CommaBehind(a, k) == p;
      assert CommaBehind(b, k) == p;
    }
    if IsCommaOf(b, p) {
      var k :| 0 <= k < |front| && CommaBehind(b, k) == p;
      assert CommaBehind(a, k) == p;
    }
  }

  lemma OneMoreComma(pieces: seq<string>, p: int)
    requires pieces != []
    ensures IsCommaOf(pieces + [""], p) <==> IsCommaOf(pieces, p) || p == |Join(pieces, ",")|
  {
    var n := |pieces| - 1;
    assert pieces == pieces[..n] + [pieces[n]];
    CommasOfMore(pieces[..n], pieces[n], [""], p);
    assert (pieces + [""])[..n + 1] == pieces;
    assert CommaBehind(pieces + [""], n) == |Join(pieces, ",")|;
  }

  lemma CutHere(source: string, pieces: seq<string>)
    requires AreCut(source, pieces) && Separates(source + [','], |source|)
    ensures AreCut(source + [','], pieces + [""])
  {
    JoinLast(pieces, "", ",");
    forall p
      ensures Separates(source + [','], p) <==> IsCommaOf(pieces + [""], p)
    {
      SeparatesBefore(source, ',', p);
      OneMoreComma(pieces, p);
      assert Separates(source, p) <==> IsCommaOf(pieces, p);
    }
  }

  lemma ReadOn(source: string, front: seq<string>, last: string, ch: char)
    requires AreCut(source, front + [last]) && !Separates(source + [ch], |source|)
    ensures AreCut(source + [ch], front + [last + [ch]])
  {
    JoinLast(front, last, ",");
    JoinLast(front, last + [ch], ",");
    assert Join(front + [last + [ch]], ",") == source + [ch];
    forall p
      ensures Separates(source + [ch], p) <==> IsCommaOf(front + [last + [ch]], p)
    {
      SeparatesBefore(source, ch, p);
      LastHasNoComma(front, last, last + [ch], p);
      assert Separates(source, p) <==> IsCommaOf(front + [last], p);
    }
  }

  predicate AreTrimmed(out: seq<string>, pieces: seq<string>) {
    |out| == |pieces| && forall k :: 0 <= k < |out| ==> out[k] == Trim(pieces[k])
  }

  ghost predicate HasPieces(s: Split, source: string, front: seq<string>) {
    Tracks(s, source) && AreCut(source, front + [s.current]) && AreTrimmed(s.out, front)
  }

  lemma OneMoreChar(s: Split, source: string, front: seq<string>, ch: char)
    requires HasPieces(s, source, front)
    ensures HasPieces(SplitStep(s, ch), source + [ch], if CutsAt(s, ch) then front + [s.current] else front)
  {
    StepTracks(s, source, ch);
    StepChanges(s, ch);
    if CutsAt(s, ch) {
      CutHere(source, front + [s.current]);
    } else {
      ReadOn(source, front, s.current, ch);
    }
  }

  lemma LastChar(source: string)
    requires source != ""
    ensures source == source[..|source| - 1] + [source[|source| - 1]]
  {
  }

  lemma SplitLast(source: string)
    requires source != ""
    ensures SplitFrom(START, source) == SplitStep(SplitFrom(START, source[..|source| - 1]), source[|source| - 1])
  {
  }

  /** The pieces behind a state of the splitter. */
  lemma {:induction false} PiecesOf(source: string) returns (front: seq<string>)
    ensures HasPieces(SplitFrom(START, source), source, front)
  {
    if source == "" {
      front := [];
      NothingRead(START, source);
    } else {
      var before, ch := source[..|source| - 1], source[|source| - 1];
      var s := SplitFrom(START, before);
      front := PiecesOf(before);
      OneMoreChar(s, before, front, ch);
      front := if CutsAt(s, ch) then front + [s.current] else front;
      LastChar(source);
      SplitLast(source);
    }
  }

  lemma NoneOpenAtStart(source: string, open: char, close: char)
    requires source == ""
    ensures OpenAtEnd(source, open, close, 0)
  {
    assert Climb(source, 0, open, close) == 0;
  }

  lemma NothingIsCut(source: string, pieces: seq<string>)
    requires source == "" && pieces == [""]
    ensures AreCut(source, pieces)
  {
  }

  lemma StartTracks(s: Split, source: string)
    requires s == START && source == ""
    ensures Tracks(s, source)
  {
    NoneOpenAtStart(source, '(', ')');
    NoneOpenAtStart(source, '[', ']');
    NoneOpenAtStart(source, '{', '}');
  }

  lemma ArePiecesOf(s: Split, source: string, front: seq<string>, pieces: seq<string>)
    requires Tracks(s, source) && AreCut(source, pieces) && pieces == front + [s.current] && AreTrimmed(s.out, front)
    ensures HasPieces(s, source, front)
  {
  }

  lemma OneEmptyPiece(s: Split)
    requires s == START
    ensures s.out + [s.current] == [""]
  {
  }

  lemma StartIsCut(s: Split, source: string)
    requires s == START && source == ""
    ensures AreCut(source, s.out + [s.current])
  {
    OneEmptyPiece(s);
    NothingIsCut(source, s.out + [s.current]);
  }

  lemma NothingRead(s: Split, source: string)
    requires s == START && source == ""
    ensures HasPieces(s, source, s.out)
  {
    StartIsCut(s, source);
    StartTracks(s, source);
    ArePiecesOf(s, source, s.out, s.out + [s.current]);
  }

  /** The arguments of any text are its pieces between the separating commas, trimmed,
      in order and also where they are blank; only a blank last one is dropped. */
  lemma SplitCutsAtCommas(source: string) returns (pieces: seq<string>)
    ensures AreCut(source, pieces)
    ensures var args, last := TopLevelArguments(source), |pieces| - 1;
      AreTrimmed(args, if IsBlank(pieces[last]) then pieces[..last] else pieces)
  {
    var s := SplitFrom(START, source);
    var front := PiecesOf(source);
    pieces := front + [s.current];
    var lead, tail := TrimCuts(s.current);
  }
}
