/**
  C source written token by token, and what the reference lexer makes of it: the two channels
  of `code_only` in `scripts/check_cuda_launch_returns.py`, in terms of how comments and
  literals are spelt.
 */
module CTokens {
  import opened CLexer

  /** A character of a literal: as it is, or behind a backslash. */
  datatype Piece = Raw(c: char) | Escaped(c: char)

  datatype Token = Char(c: char) | LineComment(body: string) | BlockComment(body: string) | Quoted(quote: char, pieces: seq<Piece>)

  function SpellPieces(ps: seq<Piece>): string {
    if ps == [] then "" else (if ps[0].Raw? then [ps[0].c] else ['\\', ps[0].c]) + SpellPieces(ps[1..])
  }

  function Spell(t: Token): string {
    match t
    case Char(c) => [c]
    case LineComment(body) => "//" + body
    case BlockComment(body) => "/*" + body + "*/"
    case Quoted(quote, pieces) => [quote] + SpellPieces(pieces) + [quote]
  }

  function SpellAll(ts: seq<Token>): string {
    if ts == [] then "" else Spell(ts[0]) + SpellAll(ts[1..])
  }

  function KindsOfToken(t: Token): seq<Kind> {
    match t
    case Char(_) => [Code]
    case Quoted(_, pieces) => [Quote] + Repeat(Body, |SpellPieces(pieces)|) + [Quote]
    case _ => Repeat(Comment, |Spell(t)|)
  }

  function KindsOfAll(ts: seq<Token>): seq<Kind> {
    if ts == [] then [] else KindsOfToken(ts[0]) + KindsOfAll(ts[1..])
  }

  /** The token can stand in front of `rest`: it is what it looks like, and ends where it seems to. */
  ghost predicate FitsBefore(t: Token, rest: string) {
    match t
    case Char(c) => c != '"' && c != '\'' && (c == '/' ==> rest == "" || (rest[0] != '/' && rest[0] != '*'))
    case LineComment(body) => '\n' !in body && (rest == "" || rest[0] == '\n')
    case BlockComment(body) => forall k :: 0 <= k < |body| ==> !At(body + "*/", k, '*', '/')
    case Quoted(quote, pieces) =>
      (quote == '"' || quote == '\'') && forall k :: 0 <= k < |pieces| && pieces[k].Raw? ==> pieces[k].c != quote && pieces[k].c != '\\'
  }

  ghost predicate Proper(ts: seq<Token>) {
    ts != [] ==> FitsBefore(ts[0], SpellAll(ts[1..])) && Proper(ts[1..])
  }

  // ---- Where the tokens end -----------------------------------------------------------------------------

  lemma {:induction false} LineEndAt(text: string, j: nat, e: nat)
    requires j <= e <= |text| && (forall k :: j <= k < e ==> text[k] != '\n') && (e < |text| ==> text[e] == '\n')
    ensures LineEnd(text, j) == e
    decreases e - j
  {
    if j < e {
      LineEndAt(text, j + 1, e);
    }
  }

  lemma {:induction false} BlockEndAt(text: string, j: nat, e: nat)
    requires j <= e && e + 2 <= |text| && At(text, e, '*', '/') && forall k :: j <= k < e ==> !At(text, k, '*', '/')
    ensures BlockEnd(text, j) == e + 2
    decreases e - j
  {
    if j < e {
      BlockEndAt(text, j + 1, e);
    }
  }

  lemma {:induction false} LiteralEndAt(text: string, j: nat, quote: char, ps: seq<Piece>, rest: string)
    requires j <= |text| && text[j..] == SpellPieces(ps) + ([quote] + rest) && quote != '\\'
    requires forall k :: 0 <= k < |ps| && ps[k].Raw? ==> ps[k].c != quote && ps[k].c != '\\'
    ensures LiteralEnd(text, j, quote) == j + |SpellPieces(ps)|
    decreases |ps|
  {
    if ps == [] {
      assert text[j] == text[j..][0] == quote;
    } else {
      var n := if ps[0].Raw? then 1 else 2;
      var tail := SpellPieces(ps[1..]) + ([quote] + rest);
      assert text[j..] == (if ps[0].Raw? then [ps[0].c] else ['\\', ps[0].c]) + tail;
      assert text[j] == text[j..][0];
      assert text[j + n..] == text[j..][n..] == tail;
      LiteralEndAt(text, j + n, quote, ps[1..], rest);
    }
  }

  // ---- Lexing what is spelt --------------------------------------------------------------------------------

  lemma LexChar(text: string, i: nat, c: char, rest: string)
    requires i <= |text| && text[i..] == [c] + rest && FitsBefore(Char(c), rest)
    ensures i < |text| && text[i + 1..] == rest && Kinds(text, i) == [Code] + Kinds(text, i + 1)
  {
    assert text[i] == text[i..][0] && text[i + 1..] == text[i..][1..] == rest;
    if i + 1 < |text| {
      assert text[i + 1] == rest[0];
    }
    KindsOfCode(text, i);
  }

  lemma LexLineComment(text: string, i: nat, body: string, rest: string)
    requires i <= |text| && text[i..] == "//" + body + rest && FitsBefore(LineComment(body), rest)
    ensures var e := i + 2 + |body|;
      e <= |text| && text[e..] == rest && Kinds(text, i) == Repeat(Comment, 2 + |body|) + Kinds(text, e)
  {
    hide Kinds;
    hide LineEnd;
    var e := i + 2 + |body|;
    Stands(text, i, "//", body, rest);
    LineEndAt(text, i + 2, e);
    KindsOfComment(text, i);
  }

  lemma Stands(text: string, i: nat, head: string, body: string, rest: string)
    requires i <= |text| && text[i..] == head + body + rest
    ensures var j := i + |head|; var e := j + |body|;
      && e <= |text| && text[e..] == rest && (e < |text| ==> rest != "" && text[e] == rest[0])
      && (forall k :: i <= k < j ==> text[k] == head[k - i])
      && (forall k :: j <= k < e ==> text[k] == body[k - j])
  {
    var s, j, e := text[i..], i + |head|, i + |head| + |body|;
    assert forall k :: i <= k < |text| ==> text[k] == s[k - i];
    assert text[e..] == s[e - i..] == rest;
  }

  lemma LexBlockComment(text: string, i: nat, body: string, rest: string)
    requires i <= |text| && text[i..] == "/*" + body + "*/" + rest && FitsBefore(BlockComment(body), rest)
    ensures var e := i + 4 + |body|;
      e <= |text| && text[e..] == rest && Kinds(text, i) == Repeat(Comment, 4 + |body|) + Kinds(text, e)
  {
    hide Kinds;
    hide BlockEnd;
    var e, inside := i + 2 + |body|, body + "*/";
    assert "/*" + body + "*/" + rest == "/*" + inside + rest;
    Stands(text, i, "/*", inside, rest);
    assert inside[|body|] == '*' && inside[|body| + 1] == '/';
    forall k | i + 2 <= k < e ensures !At(text, k, '*', '/') {
      assert !At(inside, k - i - 2, '*', '/');
    }
    BlockEndAt(text, i + 2, e);
    KindsOfComment(text, i);
  }

  lemma LexQuoted(text: string, i: nat, quote: char, pieces: seq<Piece>, rest: string)
    requires i <= |text| && text[i..] == [quote] + SpellPieces(pieces) + [quote] + rest && FitsBefore(Quoted(quote, pieces), rest)
    ensures var n := |SpellPieces(pieces)|;
      && i + n + 2 <= |text| && text[i + n + 2..] == rest
      && Kinds(text, i) == ([Quote] + Repeat(Body, n) + [Quote]) + Kinds(text, i + n + 2)
  {
    hide *;
    var inside := SpellPieces(pieces);
    QuotedFits(quote, pieces, rest);
    QuotedStands(text, i, quote, inside, rest);
    LiteralEndAt(text, i + 1, quote, pieces, rest);
    KindsOfLiteral(text, i);
    LiteralIs(text, i + 1, quote);
    QuotedKinds(Kinds(text, i), Repeat(Body, |inside|), Literal(text, i + 1, quote), Kinds(text, i + |inside| + 2));
  }

  lemma QuotedFits(quote: char, pieces: seq<Piece>, rest: string)
    requires FitsBefore(Quoted(quote, pieces), rest)
    ensures IsQuote(quote) && quote != '\\'
    ensures forall k :: 0 <= k < |pieces| && pieces[k].Raw? ==> pieces[k].c != quote && pieces[k].c != '\\'
  {
  }

  lemma QuotedStands(text: string, i: nat, quote: char, inside: string, rest: string)
    requires i <= |text| && text[i..] == [quote] + inside + [quote] + rest
    ensures var e := i + |inside| + 2;
      && e <= |text| && text[i] == quote && text[i + 1..] == inside + ([quote] + rest) && text[e..] == rest
  {
    var s := text[i..];
    assert text[i] == s[0];
    assert text[i + 1..] == s[1..] == inside + ([quote] + rest);
    assert text[i + |inside| + 2..] == s[|inside| + 2..] == rest;
  }

  lemma QuotedKinds(all: seq<Kind>, body: seq<Kind>, literal: seq<Kind>, rest: seq<Kind>)
    requires all == [Quote] + literal && literal == body + ([Quote] + rest)
    ensures all == ([Quote] + body + [Quote]) + rest
  {
  }

  /**
    Text made of whole tokens is lexed as they are spelt: comments run from their mark to the
    end of the line or to the first end mark, and literals from quote to quote, whatever
    stands in them, an escaped quote and the marks of comments included.
   */
  lemma {:induction false} LexesAsSpelt(text: string, i: nat, ts: seq<Token>)
    requires i <= |text| && text[i..] == SpellAll(ts) && Proper(ts)
    ensures Kinds(text, i) == KindsOfAll(ts)
    decreases |ts|
  {
    if ts == [] {
      NothingToLex(text, i);
    } else {
      var t, rest := ts[0], SpellAll(ts[1..]);
      var e := LexToken(text, i, t, rest);
      hide Kinds;
      hide SpellAll;
      LexesAsSpelt(text, e, ts[1..]);
    }
  }

  lemma NothingToLex(text: string, i: nat)
    requires i <= |text| && text[i..] == ""
    ensures Kinds(text, i) == []
  {
  }

  lemma LexToken(text: string, i: nat, t: Token, rest: string) returns (e: nat)
    requires i <= |text| && text[i..] == Spell(t) + rest && FitsBefore(t, rest)
    ensures e <= |text| && text[e..] == rest && Kinds(text, i) == KindsOfToken(t) + Kinds(text, e)
  {
    hide Kinds;
    hide FitsBefore;
    hide SpellPieces;
    match t
    case Char(c) =>
      LexChar(text, i, c, rest);
      e := i + 1;
    case LineComment(body) =>
      LexLineComment(text, i, body, rest);
      e := i + 2 + |body|;
    case BlockComment(body) =>
      LexBlockComment(text, i, body, rest);
      e := i + 4 + |body|;
    case Quoted(quote, pieces) =>
      LexQuoted(text, i, quote, pieces, rest);
      e := i + |SpellPieces(pieces)| + 2;
  }
}
