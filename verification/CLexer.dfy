/** `code_only` of `scripts/check_cuda_launch_returns.py`: C source with comments and literal bodies blanked. */
module CLexer {

  const BLANK := ' '

  // ---- Reference: whole comments and literals, one at a time ----------------------------

  /** What a character of the text is part of. */
  datatype Kind = Code | Comment | Quote | Body

  function Repeat(kind: Kind, count: nat): (kinds: seq<Kind>)
    ensures |kinds| == count
    ensures forall i :: 0 <= i < count ==> kinds[i] == kind
  {
    seq(count, _ => kind)
  }

  /** The next line break at or after `i`, or the end of the text. */
  function LineEnd(text: string, i: nat): (e: nat)
    requires i <= |text|
    ensures i <= e <= |text|
    decreases |text| - i
  {
    if i == |text| || text[i] == '\n' then i else LineEnd(text, i + 1)
  }

  predicate At(text: string, i: nat, c: char, d: char) {
    i + 1 < |text| && text[i] == c && text[i + 1] == d
  }

  /** Behind the next end of a block comment at or after `i`, or the end of the text. */
  function BlockEnd(text: string, i: nat): (e: nat)
    requires i <= |text|
    ensures i <= e <= |text|
    decreases |text| - i
  {
    if i == |text| then i else if At(text, i, '*', '/') then i + 2 else BlockEnd(text, i + 1)
  }

  /** The next `quote` at or after `i` that no backslash escapes, or the end of the text. */
  function LiteralEnd(text: string, i: nat, quote: char): (e: nat)
    requires i <= |text|
    ensures i <= e <= |text|
    ensures e < |text| ==> text[e] == quote
    decreases |text| - i
  {
    if i == |text| then i
    else if text[i] == '\\' then (if i + 2 <= |text| then LiteralEnd(text, i + 2, quote) else |text|)
    else if text[i] == quote then i
    else LiteralEnd(text, i + 1, quote)
  }

  predicate IsQuote(c: char) {
    c == '"' || c == '\''
  }

  /** The kinds of the characters from `i` on, where code begins. */
  function Kinds(text: string, i: nat): (kinds: seq<Kind>)
    requires i <= |text|
    ensures |kinds| == |text| - i
    decreases |text| - i
  {
    if i == |text| then []
    else if At(text, i, '/', '/') then
      Repeat(Comment, LineEnd(text, i + 2) - i) + Kinds(text, LineEnd(text, i + 2))
    else if At(text, i, '/', '*') then
      Repeat(Comment, BlockEnd(text, i + 2) - i) + Kinds(text, BlockEnd(text, i + 2))
    else if IsQuote(text[i]) then [Quote] + Literal(text, i + 1, text[i])
    else [Code] + Kinds(text, i + 1)
  }

  /** The kinds from `i` on, inside a literal. */
  function Literal(text: string, i: nat, quote: char): (kinds: seq<Kind>)
    requires i <= |text|
    ensures |kinds| == |text| - i
    decreases |text| - i
  {
    var e := LiteralEnd(text, i, quote);
    Repeat(Body, e - i) + if e == |text| then [] else [Quote] + Kinds(text, e + 1)
  }

  /** A character in the channel that keeps literals, and in the one that blanks them too. */
  function InCode(c: char, kind: Kind): char {
    if kind == Comment && c != '\n' then BLANK else c
  }

  function InBlanked(c: char, kind: Kind): char {
    if (kind == Comment || kind == Body) && c != '\n' then BLANK else c
  }

  function CodeChannel(text: string): (code: string)
    ensures |code| == |text|
  {
    var kinds := Kinds(text, 0);
    seq(|text|, i requires 0 <= i < |text| => InCode(text[i], kinds[i]))
  }

  function BlankedChannel(text: string): (blanked: string)
    ensures |blanked| == |text|
  {
    var kinds := Kinds(text, 0);
    seq(|text|, i requires 0 <= i < |text| => InBlanked(text[i], kinds[i]))
  }

  // ---- The program: one character at a time ----------------------------------------------

  datatype State = InText | InLine | InBlock | InString | InChar

  function QuoteOf(state: State): char
    requires state == InString || state == InChar
  {
    if state == InString then '"' else '\''
  }

  /** What the reference says of the rest of the text, given the state the program is in. */
  ghost function Rest(text: string, i: nat, state: State): (kinds: seq<Kind>)
    requires i <= |text|
    ensures |kinds| == |text| - i
  {
    match state
    case InText => Kinds(text, i)
    case InLine => Repeat(Comment, LineEnd(text, i) - i) + Kinds(text, LineEnd(text, i))
    case InBlock => Repeat(Comment, BlockEnd(text, i) - i) + Kinds(text, BlockEnd(text, i))
    case InString => Literal(text, i, '"')
    case InChar => Literal(text, i, '\'')
  }

  /** The end of the comment that opens at `i`. */
  function CommentEnd(text: string, i: nat): nat
    requires At(text, i, '/', '/') || At(text, i, '/', '*')
  {
    if text[i + 1] == '/' then LineEnd(text, i + 2) else BlockEnd(text, i + 2)
  }

  lemma KindsOfComment(text: string, i: nat)
    requires At(text, i, '/', '/') || At(text, i, '/', '*')
    ensures i + 2 <= CommentEnd(text, i) <= |text|
    ensures Kinds(text, i) == Repeat(Comment, CommentEnd(text, i) - i) + Kinds(text, CommentEnd(text, i))
  {
  }

  lemma KindsOfLiteral(text: string, i: nat)
    requires i < |text| && IsQuote(text[i])
    ensures Kinds(text, i) == [Quote] + Literal(text, i + 1, text[i])
  {
  }

  lemma LiteralIs(text: string, i: nat, quote: char)
    requires i <= |text|
    ensures var e := LiteralEnd(text, i, quote);
      Literal(text, i, quote) == Repeat(Body, e - i) + if e == |text| then [] else [Quote] + Kinds(text, e + 1)
  {
  }

  lemma KindsOfCode(text: string, i: nat)
    requires i < |text| && !At(text, i, '/', '/') && !At(text, i, '/', '*') && !IsQuote(text[i])
    ensures Kinds(text, i) == [Code] + Kinds(text, i + 1)
  {
  }

  lemma RepeatSplit(kind: Kind, m: nat, n: nat)
    ensures Repeat(kind, m + n) == Repeat(kind, m) + Repeat(kind, n)
    ensures Repeat(kind, 1) == [kind] && Repeat(kind, 2) == [kind, kind]
  {
  }

  /** One step of the reference, in program terms: the kinds passed, and the state behind them. */
  lemma RestInText(text: string, i: nat)
    requires i < |text|
    ensures Rest(text, i, InText) ==
      if At(text, i, '/', '/') then [Comment, Comment] + Rest(text, i + 2, InLine)
      else if At(text, i, '/', '*') then [Comment, Comment] + Rest(text, i + 2, InBlock)
      else if text[i] == '"' then [Quote] + Rest(text, i + 1, InString)
      else if text[i] == '\'' then [Quote] + Rest(text, i + 1, InChar)
      else [Code] + Rest(text, i + 1, InText)
  {
    hide Kinds;
    hide Literal;
    if At(text, i, '/', '/') || At(text, i, '/', '*') {
      KindsOfComment(text, i);
      RepeatSplit(Comment, 2, CommentEnd(text, i) - i - 2);
    } else if IsQuote(text[i]) {
      KindsOfLiteral(text, i);
    } else {
      KindsOfCode(text, i);
    }
  }

  lemma RestInLine(text: string, i: nat)
    requires i < |text|
    ensures Rest(text, i, InLine) ==
      if text[i] == '\n' then [Code] + Rest(text, i + 1, InText) else [Comment] + Rest(text, i + 1, InLine)
  {
    hide Kinds;
    if text[i] == '\n' {
      KindsOfCode(text, i);
    } else {
      RepeatSplit(Comment, 1, LineEnd(text, i + 1) - i - 1);
    }
  }

  lemma RestInBlock(text: string, i: nat)
    requires i < |text|
    ensures Rest(text, i, InBlock) ==
      if At(text, i, '*', '/') then [Comment, Comment] + Rest(text, i + 2, InText) else [Comment] + Rest(text, i + 1, InBlock)
  {
    hide Kinds;
    RepeatSplit(Comment, 1, if At(text, i, '*', '/') then 1 else BlockEnd(text, i + 1) - i - 1);
  }

  lemma RestInLiteral(text: string, i: nat, state: State)
    requires i < |text| && (state == InString || state == InChar)
    ensures Rest(text, i, state) ==
      if text[i] == '\\' then (if i + 1 < |text| then [Body, Body] + Rest(text, i + 2, state) else [Body])
      else if text[i] == QuoteOf(state) then [Quote] + Rest(text, i + 1, InText)
      else [Body] + Rest(text, i + 1, state)
  {
    hide Kinds;
    hide Literal;
    var quote := QuoteOf(state);
    if text[i] == '\\' {
      if i + 1 < |text| {
        LiteralStep(text, i, quote, 2);
      } else {
        LiteralStep(text, i, quote, 1);
        LiteralIs(text, i + 1, quote);
      }
    } else if text[i] == quote {
      LiteralIs(text, i, quote);
    } else {
      LiteralStep(text, i, quote, 1);
    }
  }

  /** `k` characters further on in the same literal. */
  lemma LiteralStep(text: string, i: nat, quote: char, k: nat)
    requires i + k <= |text| && LiteralEnd(text, i, quote) == LiteralEnd(text, i + k, quote)
    ensures Literal(text, i, quote) == Repeat(Body, k) + Literal(text, i + k, quote)
    ensures Repeat(Body, 1) == [Body] && Repeat(Body, 2) == [Body, Body]
  {
    hide Kinds;
    hide Literal;
    hide LiteralEnd;
    LiteralIs(text, i, quote);
    LiteralIs(text, i + k, quote);
    RepeatSplit(Body, k, LiteralEnd(text, i, quote) - i - k);
  }

  /** The step the program takes: how far, to which state, and the kind of what it passes. */
  datatype Step = Step(length: nat, state: State, kind: Kind)

  ghost function StepAt(text: string, i: nat, state: State): Step
    requires i < |text|
  {
    var c, pair := text[i], i + 1 < |text|;
    match state
    case InText =>
      if At(text, i, '/', '/') then Step(2, InLine, Comment)
      else if At(text, i, '/', '*') then Step(2, InBlock, Comment)
      else if c == '"' then Step(1, InString, Quote)
      else if c == '\'' then Step(1, InChar, Quote)
      else Step(1, InText, Code)
    case InLine => if c == '\n' then Step(1, InText, Code) else Step(1, InLine, Comment)
    case InBlock => if At(text, i, '*', '/') then Step(2, InText, Comment) else Step(1, InBlock, Comment)
    case _ =>
      if c == '\\' then Step(if pair then 2 else 1, state, Body)
      else if c == QuoteOf(state) then Step(1, InText, Quote)
      else Step(1, state, Body)
  }

  /** The reference agrees with the step, kind by kind, and goes on in the new state. */
  lemma StepFollowsReference(text: string, kinds: seq<Kind>, i: nat, state: State)
    requires i < |text| == |kinds| && kinds[i..] == Rest(text, i, state)
    ensures var s := StepAt(text, i, state);
      && s.length in {1, 2} && i + s.length <= |text|
      && kinds[i] == s.kind && (s.length == 2 ==> kinds[i + 1] == s.kind)
      && kinds[i + s.length..] == Rest(text, i + s.length, s.state)
  {
    hide Kinds;
    hide Literal;
    var s := StepAt(text, i, state);
    match state {
      case InText => RestInText(text, i);
      case InLine => RestInLine(text, i);
      case InBlock => RestInBlock(text, i);
      case _ => RestInLiteral(text, i, state);
    }
    var head := if s.length == 1 then [s.kind] else [s.kind, s.kind];
    hide Rest;
    assert kinds[i..] == head + Rest(text, i + s.length, s.state);
    assert kinds[i] == kinds[i..][0];
    assert kinds[i + s.length..] == kinds[i..][s.length..];
  }

  /** The channels are final before `i` and still the text from there on. */
  ghost predicate Written(text: string, kinds: seq<Kind>, code: array<char>, blanked: array<char>, i: nat)
    reads code, blanked
  {
    && code != blanked && |kinds| == |text| == code.Length == blanked.Length
    && (forall j :: 0 <= j < i && j < |text| ==> code[j] == InCode(text[j], kinds[j]) && blanked[j] == InBlanked(text[j], kinds[j]))
    && (forall j :: i <= j < |text| ==> code[j] == text[j] == blanked[j])
  }

  lemma WrittenAll(text: string, kinds: seq<Kind>, code: array<char>, blanked: array<char>, i: nat)
    requires kinds == Kinds(text, 0) && i >= |text| && Written(text, kinds, code, blanked, i)
    ensures code[..] == CodeChannel(text) && blanked[..] == BlankedChannel(text)
  {
    hide Kinds;
  }

  /** The loop's step in code: open a comment or a literal, or pass one character. */
  method PassCode(text: string, ghost kinds: seq<Kind>, code: array<char>, blanked: array<char>, i: nat) returns (next: nat, state: State)
    requires i < |text| && Written(text, kinds, code, blanked, i)
    requires var s := StepAt(text, i, InText); kinds[i] == s.kind && (s.length == 2 ==> kinds[i + 1] == s.kind)
    modifies code, blanked
    ensures next == i + StepAt(text, i, InText).length && state == StepAt(text, i, InText).state
    ensures Written(text, kinds, code, blanked, next)
  {
    var c := text[i];
    var pair := i + 1 < |text|;
    if c == '/' && pair && text[i + 1] == '/' {
      code[i], blanked[i], code[i + 1], blanked[i + 1] := BLANK, BLANK, BLANK, BLANK;
      return i + 2, InLine;
    }
    if c == '/' && pair && text[i + 1] == '*' {
      code[i], blanked[i], code[i + 1], blanked[i + 1] := BLANK, BLANK, BLANK, BLANK;
      return i + 2, InBlock;
    }
    if c == '"' {
      return i + 1, InString;
    }
    if c == '\'' {
      return i + 1, InChar;
    }
    return i + 1, InText;
  }

  /** The loop's step in a comment. */
  method PassComment(text: string, ghost kinds: seq<Kind>, code: array<char>, blanked: array<char>, i: nat, inside: State) returns (next: nat, state: State)
    requires i < |text| && Written(text, kinds, code, blanked, i) && (inside == InLine || inside == InBlock)
    requires var s := StepAt(text, i, inside); kinds[i] == s.kind && (s.length == 2 ==> kinds[i + 1] == s.kind)
    modifies code, blanked
    ensures next == i + StepAt(text, i, inside).length && state == StepAt(text, i, inside).state
    ensures Written(text, kinds, code, blanked, next)
  {
    var c := text[i];
    if inside == InLine {
      if c == '\n' {
        return i + 1, InText;
      }
      code[i], blanked[i] := BLANK, BLANK;
      return i + 1, InLine;
    }
    if c == '*' && i + 1 < |text| && text[i + 1] == '/' {
      code[i], blanked[i], code[i + 1], blanked[i + 1] := BLANK, BLANK, BLANK, BLANK;
      return i + 2, InText;
    }
    if c != '\n' {
      code[i], blanked[i] := BLANK, BLANK;
    }
    return i + 1, InBlock;
  }

  /** The loop's step in a literal: only the second channel loses the body. */
  method PassLiteral(text: string, ghost kinds: seq<Kind>, code: array<char>, blanked: array<char>, i: nat, inside: State) returns (next: nat, state: State)
    requires i < |text| && Written(text, kinds, code, blanked, i) && (inside == InString || inside == InChar)
    requires var s := StepAt(text, i, inside); kinds[i] == s.kind && (s.length == 2 ==> kinds[i + 1] == s.kind)
    modifies code, blanked
    ensures next == i + 2 || next == i + StepAt(text, i, inside).length
    ensures next == i + 2 && StepAt(text, i, inside).length == 1 ==> i + 1 == |text|
    ensures next == i + 1 ==> StepAt(text, i, inside).length == 1
    ensures state == StepAt(text, i, inside).state
    ensures Written(text, kinds, code, blanked, next)
  {
    var c := text[i];
    if c == '\\' {
      blanked[i] := BLANK;
      if i + 1 < |text| && text[i + 1] != '\n' {
        blanked[i + 1] := BLANK;
      }
      return i + 2, inside;
    }
    if c == QuoteOf(inside) {
      return i + 1, InText;
    }
    if c != '\n' {
      blanked[i] := BLANK;
    }
    return i + 1, inside;
  }

  /** Both channels of `text`: what the state machine writes is what the reference says. */
  method CodeOnly(text: string) returns (codeText: string, blankedText: string)
    ensures codeText == CodeChannel(text)
    ensures blankedText == BlankedChannel(text)
  {
    var n := |text|;
    var code := new char[n](i requires 0 <= i < n => text[i]);
    var blanked := new char[n](i requires 0 <= i < n => text[i]);
    var i, state := 0, InText;
    ghost var kinds := Kinds(text, 0);
    assert kinds[0..] == Rest(text, 0, state);
    hide Rest;
    hide Kinds;
    hide StepAt;
    hide CodeChannel;
    hide BlankedChannel;
    assert Written(text, kinds, code, blanked, 0);
    hide Written;
    while i < n
      invariant i <= n + 1
      invariant i <= n ==> kinds[i..] == Rest(text, i, state)
      invariant fresh(code) && fresh(blanked) && Written(text, kinds, code, blanked, i)
    {
      StepFollowsReference(text, kinds, i, state);
      if state == InText {
        i, state := PassCode(text, kinds, code, blanked, i);
      } else if state == InLine || state == InBlock {
        i, state := PassComment(text, kinds, code, blanked, i, state);
      } else {
        i, state := PassLiteral(text, kinds, code, blanked, i, state);
      }
    }
    WrittenAll(text, kinds, code, blanked, i);
    codeText, blankedText := code[..], blanked[..];
  }

  // ---- What the channels guarantee -------------------------------------------------------

  /** Offsets and line breaks are those of the text, and only comments and literal bodies change. */
  lemma ChannelsKeepPlaces(text: string, j: nat)
    requires j < |text|
    ensures (CodeChannel(text)[j] == '\n' <==> text[j] == '\n') && (BlankedChannel(text)[j] == '\n' <==> text[j] == '\n')
    ensures Kinds(text, 0)[j] in {Code, Quote} ==> CodeChannel(text)[j] == text[j] == BlankedChannel(text)[j]
    ensures Kinds(text, 0)[j] == Body ==> CodeChannel(text)[j] == text[j] && BlankedChannel(text)[j] in {BLANK, '\n'}
    ensures Kinds(text, 0)[j] == Comment ==> CodeChannel(text)[j] in {BLANK, '\n'} && BlankedChannel(text)[j] in {BLANK, '\n'}
  {
  }

  /** A quote character is the only kind of character the reference marks as `Quote`. */
  lemma {:induction false} QuotesAreQuotes(text: string, i: nat, j: nat)
    requires i <= j < |text| && Kinds(text, i)[j - i] == Quote
    ensures IsQuote(text[j])
    decreases |text| - i
  {
    hide Kinds;
    hide Literal;
    if At(text, i, '/', '/') || At(text, i, '/', '*') {
      KindsOfComment(text, i);
      QuotesAreQuotes(text, CommentEnd(text, i), j);
    } else if IsQuote(text[i]) {
      KindsOfLiteral(text, i);
      LiteralIs(text, i + 1, text[i]);
      var e := LiteralEnd(text, i + 1, text[i]);
      if j > e {
        assert Literal(text, i + 1, text[i])[j - i - 1] == Kinds(text, e + 1)[j - e - 1];
        QuotesAreQuotes(text, e + 1, j);
      }
    } else {
      KindsOfCode(text, i);
      QuotesAreQuotes(text, i + 1, j);
    }
  }

  lemma AngleIsSeenIffCode(text: string, k: nat)
    requires k < |text|
    ensures BlankedChannel(text)[k] == '<' <==> text[k] == '<' && Kinds(text, 0)[k] == Code
  {
    hide Kinds;
    hide CodeChannel;
    hide BlankedChannel;
    ChannelsKeepPlaces(text, k);
    if Kinds(text, 0)[k] == Quote {
      QuotesAreQuotes(text, 0, k);
    }
  }

  lemma ThreeFrom<T>(xs: seq<T>, j: nat)
    requires j + 3 <= |xs|
    ensures xs[j..j + 3] == [xs[j], xs[j + 1], xs[j + 2]]
  {
  }

  /** A launch is seen in the blanked channel exactly where the text has one as code. */
  lemma LaunchIsSeenIffCode(text: string, j: nat)
    requires j + 3 <= |text|
    ensures BlankedChannel(text)[j..j + 3] == "<<<" <==> text[j..j + 3] == "<<<" && Kinds(text, 0)[j..j + 3] == [Code, Code, Code]
  {
    hide Kinds;
    hide BlankedChannel;
    AngleIsSeenIffCode(text, j);
    AngleIsSeenIffCode(text, j + 1);
    AngleIsSeenIffCode(text, j + 2);
    ThreeFrom(text, j);
    ThreeFrom(BlankedChannel(text), j);
    ThreeFrom(Kinds(text, 0), j);
  }

  predicate IsBlankOrBreak(c: char) {
    c == BLANK || c == '\n'
  }

  /** `d` is the text with its comments blanked, and its literal bodies too if `bodies`. */
  ghost predicate Faded(text: string, kinds: seq<Kind>, d: string, bodies: bool) {
    && |kinds| == |text| == |d|
    && forall j :: 0 <= j < |text| ==>
      if kinds[j] == Comment || (bodies && kinds[j] == Body) then IsBlankOrBreak(d[j]) else d[j] == text[j]
  }

  /** A comment becomes code: blank code. */
  function Uncommented(kinds: seq<Kind>): (code: seq<Kind>)
    ensures |code| == |kinds|
  {
    seq(|kinds|, i requires 0 <= i < |kinds| => if kinds[i] == Comment then Code else kinds[i])
  }

  lemma {:induction false} BlanksAreCode(d: string, i: nat, e: nat)
    requires i <= e <= |d| && forall j :: i <= j < e ==> IsBlankOrBreak(d[j])
    ensures Kinds(d, i) == Repeat(Code, e - i) + Kinds(d, e)
    decreases e - i
  {
    if i < e {
      hide Kinds;
      KindsOfCode(d, i);
      BlanksAreCode(d, i + 1, e);
      RepeatSplit(Code, 1, e - i - 1);
    }
  }

  lemma {:induction false} LiteralEndSame(text: string, d: string, i: nat, quote: char)
    requires i <= |text| == |d| && IsQuote(quote)
    requires var e := LiteralEnd(text, i, quote);
      && (e < |text| ==> d[e] == text[e])
      && ((forall j :: i <= j < e ==> d[j] == text[j]) || (forall j :: i <= j < e ==> IsBlankOrBreak(d[j])))
    ensures LiteralEnd(d, i, quote) == LiteralEnd(text, i, quote)
    decreases LiteralEnd(text, i, quote) - i
  {
    var e := LiteralEnd(text, i, quote);
    if forall j :: i <= j < e ==> IsBlankOrBreak(d[j]) {
      BlankLiteral(d, i, e, quote);
    } else {
      SameLiteral(text, d, i, quote);
    }
  }

  lemma {:induction false} BlankLiteral(d: string, i: nat, e: nat, quote: char)
    requires i <= e <= |d| && IsQuote(quote) && (e < |d| ==> d[e] == quote) && forall j :: i <= j < e ==> IsBlankOrBreak(d[j])
    ensures LiteralEnd(d, i, quote) == e
    decreases e - i
  {
    if i < e {
      BlankLiteral(d, i + 1, e, quote);
    }
  }

  lemma {:induction false} SameLiteral(text: string, d: string, i: nat, quote: char)
    requires i <= |text| == |d| && IsQuote(quote)
    requires forall j :: i <= j < |text| && j <= LiteralEnd(text, i, quote) ==> d[j] == text[j]
    ensures LiteralEnd(d, i, quote) == LiteralEnd(text, i, quote)
    decreases |text| - i
  {
    if i < |text| {
      if text[i] == '\\' {
        if i + 2 <= |text| {
          SameLiteral(text, d, i + 2, quote);
        }
      } else if text[i] != quote {
        SameLiteral(text, d, i + 1, quote);
      }
    }
  }

  lemma TailOf(kinds: seq<Kind>, i: nat, head: seq<Kind>, tail: seq<Kind>)
    requires i <= |kinds| && kinds[i..] == head + tail
    ensures kinds[i + |head|..] == tail
    ensures forall j :: i <= j < i + |head| ==> kinds[j] == head[j - i]
    ensures Uncommented(head + tail) == Uncommented(head) + Uncommented(tail)
  {
    assert kinds[i + |head|..] == kinds[i..][|head|..];
    forall j | i <= j < i + |head| ensures kinds[j] == head[j - i] {
      assert kinds[j] == kinds[i..][j - i];
    }
  }

  lemma UncommentedRepeat(n: nat)
    ensures Uncommented(Repeat(Comment, n)) == Repeat(Code, n)
    ensures Uncommented([Code]) == [Code] && Uncommented([]) == []
  {
  }

  lemma UncommentedLiteral(text: string, i: nat, e: nat)
    requires i < e <= |text|
    ensures Uncommented(LiteralKinds(text, i, e)) == LiteralKinds(text, i, e)
    ensures Uncommented([]) == []
  {
  }

  /** Read again, a faded text has the same literals, and nothing in it is a comment. */
  lemma {:induction false} FadedKinds(text: string, kinds: seq<Kind>, d: string, i: nat, bodies: bool)
    requires Faded(text, kinds, d, bodies) && i <= |text| && kinds[i..] == Kinds(text, i)
    ensures Kinds(d, i) == Uncommented(Kinds(text, i))
    decreases |text| - i
  {
    hide Kinds;
    hide Literal;
    hide LiteralEnd;
    hide CommentEnd;
    hide Uncommented;
    hide LiteralKinds;
    if i == |text| {
      UncommentedRepeat(0);
      NoKinds(text, d);
    } else if At(text, i, '/', '/') || At(text, i, '/', '*') {
      KindsOfComment(text, i);
      FadedComment(text, kinds, d, i, bodies);
      hide Faded;
      FadedKinds(text, kinds, d, CommentEnd(text, i), bodies);
    } else if IsQuote(text[i]) {
      var e := LiteralEnd(text, i + 1, text[i]);
      LiteralSplit(text, i);
      TailOf(kinds, i, LiteralKinds(text, i, e), TailKinds(text, e));
      FadedLiteral(text, kinds, d, i, bodies);
      if e < |text| {
        FadedKinds(text, kinds, d, e + 1, bodies);
      }
      UncommentedLiteral(text, i, e);
    } else {
      FadedCode(text, kinds, d, i, bodies);
      hide Faded;
      FadedKinds(text, kinds, d, i + 1, bodies);
    }
  }

  lemma FadedComment(text: string, kinds: seq<Kind>, d: string, i: nat, bodies: bool)
    requires Faded(text, kinds, d, bodies) && i <= |text| && kinds[i..] == Kinds(text, i)
    requires At(text, i, '/', '/') || At(text, i, '/', '*')
    ensures i < CommentEnd(text, i) <= |text|
    ensures var e := CommentEnd(text, i);
      kinds[e..] == Kinds(text, e) && (Kinds(d, e) == Uncommented(Kinds(text, e)) ==> Kinds(d, i) == Uncommented(Kinds(text, i)))
  {
    hide Kinds;
    hide CommentEnd;
    hide Uncommented;
    KindsOfComment(text, i);
    var e := CommentEnd(text, i);
    TailOf(kinds, i, Repeat(Comment, e - i), Kinds(text, e));
    BlanksAreCode(d, i, e);
    UncommentedRepeat(e - i);
  }

  lemma FadedCode(text: string, kinds: seq<Kind>, d: string, i: nat, bodies: bool)
    requires Faded(text, kinds, d, bodies) && i < |text| && kinds[i..] == Kinds(text, i)
    requires !At(text, i, '/', '/') && !At(text, i, '/', '*') && !IsQuote(text[i])
    ensures kinds[i + 1..] == Kinds(text, i + 1)
    ensures Kinds(d, i + 1) == Uncommented(Kinds(text, i + 1)) ==> Kinds(d, i) == Uncommented(Kinds(text, i))
  {
    hide Kinds;
    hide Uncommented;
    KindsOfCode(text, i);
    TailOf(kinds, i, [Code], Kinds(text, i + 1));
    KindsOfCode(d, i);
    UncommentedRepeat(1);
  }

  lemma NoKinds(text: string, d: string)
    requires |d| == |text|
    ensures Kinds(text, |text|) == [] == Kinds(d, |d|)
  {
  }

  /** The kinds of the literal that opens at `i` and ends at `e`, quotes included, and of what follows. */
  ghost function LiteralKinds(text: string, i: nat, e: nat): (kinds: seq<Kind>)
    requires i < e <= |text|
  {
    [Quote] + Repeat(Body, e - i - 1) + if e == |text| then [] else [Quote]
  }

  ghost function TailKinds(text: string, e: nat): (kinds: seq<Kind>)
    requires e <= |text|
  {
    if e == |text| then [] else Kinds(text, e + 1)
  }

  lemma LiteralSplit(text: string, i: nat)
    requires i < |text| && IsQuote(text[i])
    ensures var e := LiteralEnd(text, i + 1, text[i]);
      i < e && Kinds(text, i) == LiteralKinds(text, i, e) + TailKinds(text, e)
  {
    KindsOfLiteral(text, i);
    LiteralIs(text, i + 1, text[i]);
    hide Kinds;
    hide Literal;
    hide LiteralEnd;
  }

  /** A faded literal ends where the literal does. */
  lemma FadedLiteral(text: string, kinds: seq<Kind>, d: string, i: nat, bodies: bool)
    requires Faded(text, kinds, d, bodies) && i < |text| && IsQuote(text[i])
    requires var e := LiteralEnd(text, i + 1, text[i]);
      i < e && forall j :: i <= j < i + |LiteralKinds(text, i, e)| ==> kinds[j] == LiteralKinds(text, i, e)[j - i]
    ensures var e := LiteralEnd(text, i + 1, text[i]);
      Kinds(d, i) == LiteralKinds(text, i, e) + TailKinds(d, e)
  {
    hide Kinds;
    hide Literal;
    var e := LiteralEnd(text, i + 1, text[i]);
    assert kinds[i] == LiteralKinds(text, i, e)[0] == Quote;
    assert forall j :: i < j < e ==> kinds[j] == LiteralKinds(text, i, e)[j - i] == Body;
    assert e < |text| ==> kinds[e] == LiteralKinds(text, i, e)[e - i] == Quote;
    LiteralEndSame(text, d, i + 1, text[i]);
    LiteralSplit(d, i);
  }

  /** What the channels of a faded text are: the faded text itself, and its own blanked form. */
  lemma FadedChannels(text: string, d: string, bodies: bool)
    requires Faded(text, Kinds(text, 0), d, bodies)
    ensures CodeChannel(d) == d
    ensures forall j :: 0 <= j < |d| ==> BlankedChannel(d)[j] == if Kinds(text, 0)[j] == Body && d[j] != '\n' then BLANK else d[j]
  {
    FadedKinds(text, Kinds(text, 0), d, 0, bodies);
    hide Kinds;
  }

  /** Both channels are fixed points: read again, the code channel gives the same two, the blanked one itself twice. */
  lemma ChannelsAreStable(text: string)
    ensures CodeChannel(CodeChannel(text)) == CodeChannel(text) && BlankedChannel(CodeChannel(text)) == BlankedChannel(text)
    ensures CodeChannel(BlankedChannel(text)) == BlankedChannel(text) == BlankedChannel(BlankedChannel(text))
  {
    FadedChannels(text, CodeChannel(text), false);
    FadedChannels(text, BlankedChannel(text), true);
    hide Kinds;
  }
}
