/**
  The launch sites that `audit` of `scripts/check_cuda_launch_returns.py` visits: the scan of
  the raw lines against the lexed text, and the end of a launch configuration.
 */
module LaunchSites {
  import opened Common
  import opened CLexer

  // ---- Lines and offsets ------------------------------------------------------------------------------

  function LineBreak(text: string): (k: nat)
    ensures k <= |text| && '\n' !in text[..k]
    ensures k < |text| ==> text[k] == '\n'
  {
    if text == "" || text[0] == '\n' then 0
    else
      var k := LineBreak(text[1..]);
      assert text[..k + 1] == [text[0]] + text[1..][..k];
      k + 1
  }

  /** `split("\n")` */
  function Split(text: string): (lines: seq<string>)
    ensures lines != []
    decreases |text|
  {
    var k := LineBreak(text);
    if k == |text| then [text] else [text[..k]] + Split(text[k + 1..])
  }

  /** The offset at which line `i` begins. */
  function Base(lines: seq<string>, i: nat): nat
    requires i <= |lines|
  {
    if i == 0 then 0 else Base(lines, i - 1) + |lines[i - 1]| + 1
  }

  lemma {:induction false} BaseOfRest(first: string, rest: seq<string>, i: nat)
    requires 1 <= i <= |rest| + 1
    ensures Base([first] + rest, i) == |first| + 1 + Base(rest, i - 1)
  {
    if i == 1 {
      assert Base([first] + rest, 0) == 0;
    } else {
      BaseOfRest(first, rest, i - 1);
    }
  }

  /** `line` stands at offset `b`, and behind it the text ends or breaks. */
  ghost predicate Stands(text: string, line: string, b: nat, last: bool) {
    && b + |line| <= |text| && text[b..b + |line|] == line
    && (if last then b + |line| == |text| else b + |line| < |text| && text[b + |line|] == '\n')
  }

  /** A line is the text between its base and the next break. */
  lemma {:induction false} LineIsText(text: string, i: nat)
    requires i < |Split(text)|
    ensures Stands(text, Split(text)[i], Base(Split(text), i), i == |Split(text)| - 1)
    decreases i
  {
    hide Split;
    hide Base;
    hide Stands;
    if i == 0 {
      FirstLine(text);
    } else {
      LaterLine(text, i);
      var k := LineBreak(text);
      var rest := text[k + 1..];
      LineIsText(rest, i - 1);
      StandsBehind(text, k + 1, Split(rest)[i - 1], Base(Split(rest), i - 1), i == |Split(text)| - 1);
    }
  }

  lemma StandsBehind(text: string, at: nat, line: string, b: nat, last: bool)
    requires at <= |text| && Stands(text[at..], line, b, last)
    ensures Stands(text, line, at + b, last)
  {
    SliceBehind(text, at, b, b + |line|);
  }

  lemma FirstLine(text: string)
    ensures Stands(text, Split(text)[0], Base(Split(text), 0), |Split(text)| == 1)
  {
    var k := LineBreak(text);
    assert text[..|text|] == text;
    var line, b := Split(text)[0], Base(Split(text), 0);
    assert line == text[..k] && b == 0;
    assert text[b..b + |line|] == line;
    assert |Split(text)| == 1 <==> k == |text| by {
      if k < |text| {
        assert |Split(text[k + 1..])| > 0;
      }
    }
  }

  lemma LaterLine(text: string, i: nat)
    requires 1 <= i < |Split(text)|
    ensures var k := LineBreak(text);
      && k < |text| && |Split(text)| == |Split(text[k + 1..])| + 1
      && Split(text)[i] == Split(text[k + 1..])[i - 1]
      && Base(Split(text), i) == k + 1 + Base(Split(text[k + 1..]), i - 1)
  {
    var k := LineBreak(text);
    BaseOfRest(text[..k], Split(text[k + 1..]), i);
  }

  lemma SliceBehind(text: string, at: nat, from: nat, to: nat)
    requires at <= |text| && from <= to <= |text| - at
    ensures text[at..][from..to] == text[at + from..at + to]
    ensures to < |text| - at ==> text[at..][to] == text[at + to]
  {
  }

  lemma SliceWithin(text: string, line: string, b: nat, c: nat, d: nat)
    requires b + |line| <= |text| && text[b..b + |line|] == line && c <= d <= |line|
    ensures line[c..d] == text[b + c..b + d]
  {
    assert forall j :: 0 <= j < |line| ==> line[j] == text[b..b + |line|][j] == text[b + j];
  }

  ghost predicate SameBreaks(text: string, other: string) {
    |text| == |other| && forall j :: 0 <= j < |text| ==> (text[j] == '\n' <==> other[j] == '\n')
  }

  lemma {:induction false} SameLineBreak(text: string, other: string)
    requires SameBreaks(text, other)
    ensures LineBreak(text) == LineBreak(other)
  {
    var k, m := LineBreak(text), LineBreak(other);
    assert forall j :: 0 <= j < m ==> other[..m][j] == other[j];
    assert forall j :: 0 <= j < k ==> text[..k][j] == text[j];
  }

  /** Texts with the same breaks have lines of the same lengths at the same bases. */
  lemma {:induction false} SameLines(text: string, other: string)
    requires SameBreaks(text, other)
    ensures |Split(text)| == |Split(other)|
    ensures forall i :: 0 <= i < |Split(text)| ==> |Split(text)[i]| == |Split(other)[i]|
    decreases |text|
  {
    SameLineBreak(text, other);
    var k := LineBreak(text);
    if k < |text| {
      SameLines(text[k + 1..], other[k + 1..]);
    }
  }

  lemma {:induction false} SameBases(lines: seq<string>, others: seq<string>, i: nat)
    requires i <= |lines| == |others| && forall k :: 0 <= k < |lines| ==> |lines[k]| == |others[k]|
    ensures Base(lines, i) == Base(others, i)
  {
    if i > 0 {
      SameBases(lines, others, i - 1);
    }
  }

  /**
    Line and column arithmetic is exact: column `c` of line `i` is the same offset in the raw
    text and in both channels.
   */
  lemma ColumnsAgree(text: string, i: nat)
    requires i < |Split(text)|
    ensures var raw, code, blanked := Split(text), Split(CodeChannel(text)), Split(BlankedChannel(text));
      && |code| == |blanked| == |raw|
      && |code[i]| == |blanked[i]| == |raw[i]| && Base(raw, i) + |raw[i]| <= |text|
      && Base(code, i) == Base(blanked, i) == Base(raw, i)
      && code[i] == CodeChannel(text)[Base(raw, i)..Base(raw, i) + |raw[i]|]
      && blanked[i] == BlankedChannel(text)[Base(raw, i)..Base(raw, i) + |raw[i]|]
  {
    hide CodeChannel;
    hide BlankedChannel;
    hide Split;
    hide Base;
    ChannelsBreakAlike(text);
    SameLines(text, CodeChannel(text));
    SameLines(text, BlankedChannel(text));
    SameBases(Split(text), Split(CodeChannel(text)), i);
    SameBases(Split(text), Split(BlankedChannel(text)), i);
    LineIsText(CodeChannel(text), i);
    LineIsText(BlankedChannel(text), i);
  }

  lemma ChannelsBreakAlike(text: string)
    ensures SameBreaks(text, CodeChannel(text)) && SameBreaks(text, BlankedChannel(text))
  {
    forall j | 0 <= j < |text|
      ensures (text[j] == '\n' <==> CodeChannel(text)[j] == '\n') && (text[j] == '\n' <==> BlankedChannel(text)[j] == '\n')
    {
      ChannelsKeepPlaces(text, j);
    }
  }

  // ---- A run of angle brackets is lexed as a whole -----------------------------------------------------------

  lemma {:induction false} LineEndBreaks(text: string, i: nat)
    requires i <= |text|
    ensures LineEnd(text, i) < |text| ==> text[LineEnd(text, i)] == '\n'
    decreases |text| - i
  {
    if i < |text| && text[i] != '\n' {
      LineEndBreaks(text, i + 1);
    }
  }

  lemma {:induction false} BlockEndSlash(text: string, i: nat)
    requires i <= |text|
    ensures BlockEnd(text, i) < |text| ==> BlockEnd(text, i) > i && text[BlockEnd(text, i) - 1] == '/'
    decreases |text| - i
  {
    if i < |text| && !At(text, i, '*', '/') {
      BlockEndSlash(text, i + 1);
    }
  }

  /** Neighbouring angle brackets are of one kind: nothing begins or ends between them. */
  lemma {:induction false} AnglesAreOfOneKind(text: string, i: nat, j: nat)
    requires i <= j && j + 1 < |text| && text[j] == '<' && text[j + 1] == '<'
    ensures Kinds(text, i)[j - i] == Kinds(text, i)[j + 1 - i]
    decreases |text| - i
  {
    hide Kinds;
    hide Literal;
    if At(text, i, '/', '/') || At(text, i, '/', '*') {
      KindsOfComment(text, i);
      var e := CommentEnd(text, i);
      LineEndBreaks(text, i + 2);
      BlockEndSlash(text, i + 2);
      if j >= e {
        AnglesAreOfOneKind(text, e, j);
      }
    } else if IsQuote(text[i]) {
      KindsOfLiteral(text, i);
      LiteralIs(text, i + 1, text[i]);
      var e := LiteralEnd(text, i + 1, text[i]);
      if j > e {
        AnglesAreOfOneKind(text, e + 1, j);
        assert Literal(text, i + 1, text[i])[j - i - 1] == Kinds(text, e + 1)[j - e - 1];
        assert Literal(text, i + 1, text[i])[j - i] == Kinds(text, e + 1)[j - e];
      }
    } else {
      KindsOfCode(text, i);
      if j == i {
        KindsOfCode(text, i + 1);
      } else {
        AnglesAreOfOneKind(text, i + 1, j);
      }
    }
  }

  // ---- The sites ------------------------------------------------------------------------------------------------

  predicate WordAt(line: string, c: nat, word: string) {
    c + |word| <= |line| && line[c..c + |word|] == word
  }

  /** `find`: the first place from `from` on where `word` stands. */
  function FindWord(line: string, word: string, from: nat): (k: Option<nat>)
    ensures k.Some? ==> from <= k.value && WordAt(line, k.value, word)
    ensures forall c :: from <= c && (k.Some? ==> c < k.value) ==> !WordAt(line, c, word)
    decreases |line| - from
  {
    if from + |word| > |line| then None
    else if WordAt(line, from, word) then Some(from)
    else FindWord(line, word, from + 1)
  }

  const LAUNCH := "<<<"

  /** A launch that is code, at column `c` of line `i`. */
  ghost predicate IsSite(text: string, i: nat, c: nat) {
    var lines := Split(text);
    && i < |lines| && WordAt(lines[i], c, LAUNCH)
    && var o := Base(lines, i) + c;
       o + 3 <= |text| && Kinds(text, 0)[o..o + 3] == [Code, Code, Code]
  }

  /** In the order of the text, without overlap. */
  ghost predicate Apart(s: (nat, nat), t: (nat, nat)) {
    s.0 < t.0 || (s.0 == t.0 && s.1 + 3 <= t.1)
  }

  ghost predicate InTextOrder(sites: seq<(nat, nat)>) {
    forall p, q :: 0 <= p < q < |sites| ==> Apart(sites[p], sites[q])
  }

  /** The site is visited, or one that begins in front of it and reaches into it is. */
  ghost predicate Visited(sites: seq<(nat, nat)>, i: nat, c: nat) {
    (i, c) in sites || (c >= 1 && (i, c - 1) in sites) || (c >= 2 && (i, c - 2) in sites)
  }

  lemma SiteIsSeen(text: string, i: nat, c: nat)
    requires i < |Split(text)| && WordAt(Split(text)[i], c, LAUNCH)
    ensures var o := Base(Split(text), i) + c;
      o + 3 <= |text| && (BlankedChannel(text)[o..o + 3] == LAUNCH <==> IsSite(text, i, c))
  {
    hide Kinds;
    hide BlankedChannel;
    hide Split;
    hide Base;
    LineIsText(text, i);
    var line, b := Split(text)[i], Base(Split(text), i);
    SliceWithin(text, line, b, c, c + 3);
    LaunchIsSeenIffCode(text, b + c);
  }

  /** A place that is no code spoils the two behind it as well. */
  lemma NoSiteNearby(text: string, i: nat, c: nat, d: nat)
    requires i < |Split(text)| && WordAt(Split(text)[i], c, LAUNCH) && !IsSite(text, i, c) && c <= d <= c + 2
    ensures !IsSite(text, i, d)
  {
    hide Kinds;
    hide Split;
    hide Base;
    if d > c && IsSite(text, i, d) {
      LineIsText(text, i);
      var line, b := Split(text)[i], Base(Split(text), i);
      var kinds := Kinds(text, 0);
      AnglesAt(text, line, b, c, d);
      var o := b + c;
      AnglesAreOfOneKind(text, 0, o);
      AnglesAreOfOneKind(text, 0, o + 1);
      ThreeFrom(kinds, b + d);
      ThreeFrom(kinds, o);
    }
  }

  lemma AnglesAt(text: string, line: string, b: nat, c: nat, d: nat)
    requires b + |line| <= |text| && text[b..b + |line|] == line && WordAt(line, c, LAUNCH) && c <= d
    ensures b + c + 3 <= |text| && text[b + c] == text[b + c + 1] == text[b + c + 2] == '<'
  {
    assert line[c..c + 3][0] == '<' && line[c..c + 3][1] == '<' && line[c..c + 3][2] == '<';
    assert line[c] == '<' && line[c + 1] == '<' && line[c + 2] == '<';
  }

  /** What the scan has done before column `col` of line `i`. */
  ghost predicate ScannedTo(text: string, sites: seq<(nat, nat)>, i: nat, col: nat) {
    && InTextOrder(sites)
    && (forall s :: s in sites ==> IsSite(text, s.0, s.1) && (s.0 < i || (s.0 == i && s.1 + 3 <= col)))
    && (forall k: nat, c: nat :: IsSite(text, k, c) && (k < i || (k == i && c < col)) ==> Visited(sites, k, c))
  }

  lemma OneMoreSite(text: string, sites: seq<(nat, nat)>, i: nat, col: nat, c: nat)
    requires ScannedTo(text, sites, i, col) && col <= c && IsSite(text, i, c)
    requires forall d: nat :: col <= d < c ==> !IsSite(text, i, d)
    ensures ScannedTo(text, sites + [(i, c)], i, c + 3)
  {
    hide IsSite;
    var more := sites + [(i, c)];
    assert forall p :: 0 <= p < |sites| ==> sites[p] in sites;
    forall k: nat, d: nat | IsSite(text, k, d) && (k < i || (k == i && d < c + 3)) ensures Visited(more, k, d) {
      if k < i || d < col {
        assert Visited(sites, k, d);
      } else {
        assert (i, c) in more && d - c <= 2;
      }
    }
  }

  lemma NoMoreSite(text: string, sites: seq<(nat, nat)>, i: nat, col: nat, next: nat)
    requires ScannedTo(text, sites, i, col) && col <= next
    requires forall d: nat :: col <= d < next ==> !IsSite(text, i, d)
    ensures ScannedTo(text, sites, i, next)
  {
    hide IsSite;
    hide Visited;
  }

  lemma NextLine(text: string, sites: seq<(nat, nat)>, i: nat, col: nat)
    requires ScannedTo(text, sites, i, col) && forall d: nat :: col <= d ==> !IsSite(text, i, d)
    ensures ScannedTo(text, sites, i + 1, 0)
  {
    hide IsSite;
    hide Visited;
  }

  /**
    The sites: the launches that are code, in the order of the text and without overlap. None
    is passed over, except inside a longer run of brackets that is visited three at a time.
   */
  method Sites(text: string) returns (sites: seq<(nat, nat)>)
    ensures InTextOrder(sites)
    ensures forall s :: s in sites ==> IsSite(text, s.0, s.1)
    ensures forall i: nat, c: nat :: IsSite(text, i, c) ==> Visited(sites, i, c)
  {
    var _, blanked := CodeOnly(text);
    var lines := Split(text);
    hide *;
    sites := [];
    NothingScanned(text);
    var lineStart := 0;
    for i := 0 to |lines|
      invariant lineStart == Base(lines, i) && ScannedTo(text, sites, i, 0)
    {
      sites := SitesOnLine(text, blanked, lines, i, lineStart, sites);
      NextBase(lines, i);
      lineStart := lineStart + |lines[i]| + 1;
    }
    AllScanned(text, sites);
  }

  lemma NextBase(lines: seq<string>, i: nat)
    requires i < |lines|
    ensures Base(lines, i + 1) == Base(lines, i) + |lines[i]| + 1
  {
  }

  method SitesOnLine(text: string, blanked: string, lines: seq<string>, i: nat, base: nat, before: seq<(nat, nat)>)
    returns (sites: seq<(nat, nat)>)
    requires blanked == BlankedChannel(text) && lines == Split(text) && i < |lines| && base == Base(lines, i)
    requires ScannedTo(text, before, i, 0)
    ensures ScannedTo(text, sites, i + 1, 0)
  {
    hide IsSite;
    hide BlankedChannel;
    hide Split;
    hide Base;
    hide ScannedTo;
    sites := before;
    var col := 0;
    while true
      invariant ScannedTo(text, sites, i, col)
      decreases |lines[i]| + 3 - col
    {
      var found := FindWord(lines[i], LAUNCH, col);
      NoSiteBetween(text, i, col);
      if found.None? {
        break;
      }
      var idx := found.value;
      SiteIsSeen(text, i, idx);
      if blanked[base + idx..base + idx + 3] == LAUNCH {
        OneMoreSite(text, sites, i, col, idx);
        sites := sites + [(i, idx)];
      } else {
        forall d: nat | col <= d < idx + 3 ensures !IsSite(text, i, d) {
          if d >= idx {
            NoSiteNearby(text, i, idx, d);
          }
        }
        NoMoreSite(text, sites, i, col, idx + 3);
      }
      col := idx + 3;
    }
    NextLine(text, sites, i, col);
  }

  lemma NothingScanned(text: string)
    ensures ScannedTo(text, [], 0, 0) && Base(Split(text), 0) == 0
  {
    hide IsSite;
  }

  lemma NoSiteBetween(text: string, i: nat, col: nat)
    requires i < |Split(text)|
    ensures var found := FindWord(Split(text)[i], LAUNCH, col);
      forall d: nat :: col <= d && (found.Some? ==> d < found.value) ==> !IsSite(text, i, d)
  {
    hide Kinds;
  }

  lemma AllScanned(text: string, sites: seq<(nat, nat)>)
    requires ScannedTo(text, sites, |Split(text)|, 0)
    ensures InTextOrder(sites)
    ensures forall s :: s in sites ==> IsSite(text, s.0, s.1)
    ensures forall i: nat, c: nat :: IsSite(text, i, c) ==> Visited(sites, i, c)
  {
    hide Kinds;
    forall i: nat, c: nat | IsSite(text, i, c) ensures Visited(sites, i, c) {
      assert i < |Split(text)|;
    }
    hide IsSite;
    hide Visited;
  }

  // ---- Behind the launch configuration -----------------------------------------------------------------------------

  const CONFIG_END := ">>>"

  /** The configuration can end in column `c` of line `i`: not before the launch at (`line`, `col`). */
  ghost predicate CanEnd(lines: seq<string>, line: nat, col: nat, i: nat, c: nat) {
    line <= i < |lines| && (i == line ==> col <= c) && WordAt(lines[i], c, ">>>")
  }

  ghost predicate NoEndBefore(lines: seq<string>, line: nat, col: nat, i: nat, c: nat) {
    forall k: nat, d: nat :: CanEnd(lines, line, col, k, d) ==> k > i || (k == i && d >= c)
  }

  /** The place behind the first end of the configuration; `None` is the program's `ValueError`. */
  method JustAfterLaunch(lines: seq<string>, line: nat, col: nat) returns (after: Option<(nat, nat)>)
    ensures after.Some? ==>
      && after.value.1 >= 3
      && CanEnd(lines, line, col, after.value.0, after.value.1 - 3)
      && NoEndBefore(lines, line, col, after.value.0, after.value.1 - 3)
    ensures after.None? ==> forall i: nat, c: nat :: !CanEnd(lines, line, col, i, c)
  {
    var i := line;
    while i < |lines|
      invariant line <= i && NoEndBefore(lines, line, col, i, 0)
    {
      var end := FindWord(lines[i], CONFIG_END, if i == line then col else 0);
      if end.Some? {
        return Some((i, end.value + 3));
      }
      i := i + 1;
    }
    return None;
  }

  // ---- Lines and words -------------------------------------------------------------------------------------------------

  /** Lines joined with line breaks. */
  function Join(lines: seq<string>): string
    requires lines != []
  {
    if |lines| == 1 then lines[0] else lines[0] + ("\n" + Join(lines[1..]))
  }

  lemma JoinMore(first: string, rest: seq<string>)
    requires rest != []
    ensures Join([first] + rest) == first + ("\n" + Join(rest))
  {
    assert |rest| > 0 && ([first] + rest)[1..] == rest;
  }

  ghost predicate Unbroken(lines: seq<string>) {
    forall i :: 0 <= i < |lines| ==> '\n' !in lines[i]
  }

  lemma CutAtBreak(text: string, k: nat)
    requires k < |text| && text[k] == '\n'
    ensures text == text[..k] + ("\n" + text[k + 1..])
  {
    assert text[k..] == "\n" + text[k + 1..];
  }

  lemma SplitStep(text: string)
    ensures var k := LineBreak(text);
      Split(text) == if k == |text| then [text] else [text[..k]] + Split(text[k + 1..])
  {
    hide LineBreak;
  }

  /** Splitting takes the text apart at its line breaks and loses nothing else. */
  lemma {:induction false} SplitIsLines(text: string)
    ensures Join(Split(text)) == text && Unbroken(Split(text))
    decreases |text|
  {
    SplitStep(text);
    hide Split, LineBreak;
    var k := LineBreak(text);
    if k < |text| {
      SplitIsLines(text[k + 1..]);
      CutAtBreak(text, k);
      JoinMore(text[..k], Split(text[k + 1..]));
    } else {
      assert text[..k] == text;
    }
  }

  lemma WordAtIff(line: string, c: nat, word: string)
    ensures WordAt(line, c, word) <==> exists a, b :: line == a + word + b && |a| == c
  {
    if WordAt(line, c, word) {
      assert line == line[..c] + word + line[c + |word|..];
    }
    if a, b :| line == a + word + b && |a| == c {
      assert line[c..c + |word|] == word;
    }
  }
}
