/** `symbol_of` of `scripts/check_doc_line_anchors.py`: the backticked symbol next to an anchor. */
module Symbols {
  import opened Common
  import opened Spans
  import opened Text

  /** The most characters allowed between a symbol and its anchor. */
  const ADJACENT_GAP := 6

  predicate IsFiller(c: char) {
    IsSpace(c) || c in "`()[]*,;:.\U{2013}\U{2014}-"
  }

  predicate IsAdjacent(gap: string) {
    |gap| <= ADJACENT_GAP && forall c :: c in gap ==> IsFiller(c)
  }

  /** The symbol a span's content names across `gap`, if it is adjacent and looks like one. */
  function TokenOf(content: string, gap: string, looksLikeSymbol: string -> bool): Option<string> {
    if IsAdjacent(gap) && looksLikeSymbol(Strip(content)) then Some(Strip(content)) else None
  }

  /** The symbol the text before the anchor ends with. */
  function TokenBefore(line: string, p: nat, startsInside: bool, looksLikeSymbol: string -> bool): Option<string>
    requires p <= |line|
  {
    var before := line[..p];
    var spans := CodeSpans(before, startsInside);
    if spans == [] then None
    else
      var last := spans[|spans| - 1];
      SpansInOrder(before, startsInside);
      assert last in spans;
      TokenOf(last.content, before[last.end..], looksLikeSymbol)
  }

  /** The symbol the text behind the anchor begins with, read from the state the text before it leaves. */
  function TokenBehind(line: string, p: nat, q: nat, startsInside: bool, looksLikeSymbol: string -> bool): Option<string>
    requires p <= q <= |line|
  {
    var after, inside := line[q..], EndsInside(line[..p], startsInside);
    var spans := CodeSpans(after, inside);
    if spans == [] then None
    else
      SpansInOrder(after, inside);
      assert spans[0] in spans;
      TokenOf(spans[0].content, after[..spans[0].start], looksLikeSymbol)
  }

  /** What stands next to the anchor at `p..q`: in front of it, or else behind. */
  function SymbolOf(line: string, p: nat, q: nat, startsInside: bool, looksLikeSymbol: string -> bool): Option<string>
    requires p <= q <= |line|
  {
    var left := TokenBefore(line, p, startsInside, looksLikeSymbol);
    if left.Some? then left else TokenBehind(line, p, q, startsInside, looksLikeSymbol)
  }

  // ---- Read off the pairing of the whole line ------------------------------------------

  /** The last span of the whole line that ends before the anchor. */
  ghost predicate NearestBefore(line: string, s: bool, p: nat, w: Span) {
    && w in CodeSpans(line, s) && w.end <= p
    && forall w' :: w' in CodeSpans(line, s) && w'.end <= p ==> w'.end <= w.end
  }

  /** A span of the whole line, as it is seen from behind the anchor. */
  ghost predicate StandsBehind(line: string, s: bool, p: nat, q: nat, sp: Span) {
    exists w :: w in CodeSpans(line, s) && SeenBehind(line, p, q, w, sp)
  }

  ghost predicate NearestBehind(line: string, s: bool, p: nat, q: nat, sp: Span) {
    && StandsBehind(line, s, p, q, sp)
    && forall sp' :: StandsBehind(line, s, p, q, sp') ==> sp.start <= sp'.start
  }

  ghost predicate NamesBefore(line: string, s: bool, p: nat, looksLikeSymbol: string -> bool, t: string) {
    exists w :: p <= |line| && NearestBefore(line, s, p, w) && TokenOf(w.content, line[w.end..p], looksLikeSymbol) == Some(t)
  }

  ghost predicate NamesBehind(line: string, s: bool, p: nat, q: nat, looksLikeSymbol: string -> bool, t: string) {
    exists sp :: NearestBehind(line, s, p, q, sp) && q + sp.start <= |line|
      && TokenOf(sp.content, line[q..q + sp.start], looksLikeSymbol) == Some(t)
  }

  lemma LastIsNearest(line: string, s: bool, p: nat, q: nat, w: Span)
    requires AnchorAt(line, p, q) && !Misleads(line, s, 0)
    ensures var bs := CodeSpans(line[..p], s);
      NearestBefore(line, s, p, w) <==> bs != [] && w == bs[|bs| - 1]
  {
    var bs := CodeSpans(line[..p], s);
    SpansInOrder(line[..p], s);
    forall sp ensures sp in bs <==> sp in CodeSpans(line, s) && sp.end <= p {
      CutAgreesWithWholeLine(line, s, p, q, sp);
    }
    hide CodeSpans;
    if NearestBefore(line, s, p, w) {
      var i :| 0 <= i < |bs| && bs[i] == w;
      assert bs[|bs| - 1] in bs;
    }
  }

  lemma FirstIsNearest(line: string, s: bool, p: nat, q: nat, sp: Span)
    requires AnchorAt(line, p, q) && !Misleads(line, s, 0)
    ensures var hs := CodeSpans(line[q..], EndsInside(line[..p], s));
      NearestBehind(line, s, p, q, sp) <==> hs != [] && sp == hs[0]
  {
    var hs := CodeSpans(line[q..], EndsInside(line[..p], s));
    SpansInOrder(line[q..], EndsInside(line[..p], s));
    forall sp ensures sp in hs <==> StandsBehind(line, s, p, q, sp) {
      CutAgreesWithWholeLine(line, s, p, q, sp);
    }
    hide CodeSpans;
    hide EndsInside;
    hide StandsBehind;
    if NearestBehind(line, s, p, q, sp) {
      var i :| 0 <= i < |hs| && hs[i] == sp;
      assert hs[0] in hs;
    }
    if hs != [] && sp == hs[0] {
      assert sp in hs;
    }
  }

  lemma NamesBeforeIs(line: string, s: bool, p: nat, q: nat, names: string -> bool, t: string)
    requires AnchorAt(line, p, q) && !Misleads(line, s, 0)
    ensures NamesBefore(line, s, p, names, t) <==> TokenBefore(line, p, s, names) == Some(t)
  {
    hide CodeSpans;
    hide EndsInside;
    hide TokenOf;
    hide Misleads;
    var bs := CodeSpans(line[..p], s);
    SpansInOrder(line[..p], s);
    if bs != [] {
      var w := bs[|bs| - 1];
      assert w in bs;
      LastIsNearest(line, s, p, q, w);
      assert line[..p][w.end..] == line[w.end..p];
    }
    if w :| NearestBefore(line, s, p, w) && TokenOf(w.content, line[w.end..p], names) == Some(t) {
      LastIsNearest(line, s, p, q, w);
    }
  }

  lemma NamesBehindIs(line: string, s: bool, p: nat, q: nat, names: string -> bool, t: string)
    requires AnchorAt(line, p, q) && !Misleads(line, s, 0)
    ensures NamesBehind(line, s, p, q, names, t) <==> TokenBehind(line, p, q, s, names) == Some(t)
  {
    hide CodeSpans;
    hide NearestBehind;
    hide EndsInside;
    hide TokenOf;
    hide Misleads;
    var hs := CodeSpans(line[q..], EndsInside(line[..p], s));
    SpansInOrder(line[q..], EndsInside(line[..p], s));
    if hs != [] {
      assert hs[0] in hs;
      FirstIsNearest(line, s, p, q, hs[0]);
      assert line[q..][..hs[0].start] == line[q..q + hs[0].start];
    }
    if sp :| NearestBehind(line, s, p, q, sp) && q + sp.start <= |line| && TokenOf(sp.content, line[q..q + sp.start], names) == Some(t) {
      FirstIsNearest(line, s, p, q, sp);
    }
  }

  /**
    Scanning the two sides separately finds the symbol the whole line's pairing puts next to
    the anchor: the span before it, or else the one behind it.
   */
  lemma SymbolOfWholeLine(line: string, p: nat, q: nat, s: bool, names: string -> bool, t: string)
    requires AnchorAt(line, p, q) && !Misleads(line, s, 0)
    ensures SymbolOf(line, p, q, s, names) == Some(t) <==>
      || NamesBefore(line, s, p, names, t)
      || ((forall u :: !NamesBefore(line, s, p, names, u)) && NamesBehind(line, s, p, q, names, t))
  {
    forall u ensures NamesBefore(line, s, p, names, u) <==> TokenBefore(line, p, s, names) == Some(u) {
      NamesBeforeIs(line, s, p, q, names, u);
    }
    NamesBehindIs(line, s, p, q, names, t);
    hide NamesBefore;
    hide NamesBehind;
    hide TokenBefore;
    hide TokenBehind;
    if left :| TokenBefore(line, p, s, names) == Some(left) {
      assert NamesBefore(line, s, p, names, left);
    }
  }

  // ---- What may stand between -----------------------------------------------------------------------------

  /** At most six characters of white space, brackets, backticks, asterisks, punctuation and dashes. */
  lemma AdjacentIff(gap: string)
    ensures IsAdjacent(gap) <==>
      |gap| <= 6 && forall i :: 0 <= i < |gap| ==>
        || IsSpace(gap[i])
        || gap[i] in {'`', '(', ')', '[', ']', '*', ',', ';', ':', '.', '-'}
        || gap[i] as int == 0x2013 || gap[i] as int == 0x2014
  {
    var fillers := "`()[]*,;:.\U{2013}\U{2014}-";
    forall c: char ensures c in fillers <==>
      c in {'`', '(', ')', '[', ']', '*', ',', ';', ':', '.', '-'} || c as int == 0x2013 || c as int == 0x2014
    {
      FillersAre(c);
    }
    if IsAdjacent(gap) {
      forall i | 0 <= i < |gap| ensures IsFiller(gap[i]) {
        assert gap[i] in gap;
      }
    }
  }

  lemma FillersAre(c: char)
    ensures c in "`()[]*,;:.\U{2013}\U{2014}-" <==>
      c in {'`', '(', ')', '[', ']', '*', ',', ';', ':', '.', '-'} || c as int == 0x2013 || c as int == 0x2014
  {
    var fillers := "`()[]*,;:.\U{2013}\U{2014}-";
    assert fillers[0] == '`' && fillers[1] == '(' && fillers[2] == ')' && fillers[3] == '[' && fillers[4] == ']' && fillers[5] == '*';
    assert fillers[6] == ',' && fillers[7] == ';' && fillers[8] == ':' && fillers[9] == '.' && fillers[12] == '-';
    assert fillers[10] as int == 0x2013 && fillers[11] as int == 0x2014;
  }

  lemma TokenIff(content: string, gap: string, names: string -> bool, t: string)
    ensures TokenOf(content, gap, names) == Some(t) <==> IsAdjacent(gap) && t == Strip(content) && names(t)
  {
  }
}
