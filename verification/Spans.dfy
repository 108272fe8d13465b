/**
  The code-span scanner of `scripts/check_doc_line_anchors.py`: backticks are paired line by
  line, with one bit carried from line to line, and on the two sides of an anchor.
 */
module Spans {
  import opened Common

  const TICK := '`'

  // ---- What the program computes ----------------------------------------------------

  /** A reported span: `end` is one past the closing backtick. */
  datatype Span = Span(start: nat, end: nat, content: string)

  /** The first position of `c` at or after `i`, or the length. */
  function Find(line: string, c: char, i: nat): (k: nat)
    requires i <= |line|
    ensures i <= k <= |line|
    ensures forall j :: i <= j < k ==> line[j] != c
    ensures k < |line| ==> line[k] == c
    decreases |line| - i
  {
    if i == |line| || line[i] == c then i else Find(line, c, i + 1)
  }

  /**
    The matches of a backtick, one or more other characters and a backtick, leftmost first. A
    backtick directly followed by another starts no match, so the search resumes one further.
   */
  function Matches(line: string, i: nat): seq<Span>
    requires i <= |line|
    decreases |line| - i
  {
    var open := Find(line, TICK, i);
    if open == |line| then []
    else
      var close := Find(line, TICK, open + 1);
      if close == |line| then []
      else if close == open + 1 then Matches(line, close)
      else [Span(open, close + 1, line[open + 1..close])] + Matches(line, close + 1)
  }

  /** What is reported for a line: first the tail of a span that is open already, then the matches. */
  function CodeSpans(line: string, startsInside: bool): seq<Span> {
    if startsInside then
      var close := Find(line, TICK, 0);
      if close == |line| then []
      else (if close > 0 then [Span(0, close + 1, line[..close])] else []) + Matches(line, close + 1)
    else Matches(line, 0)
  }

  /** The number of backticks in the first `i` characters. */
  function Ticks(line: string, i: nat): nat
    requires i <= |line|
  {
    if i == 0 then 0 else Ticks(line, i - 1) + if line[i - 1] == TICK then 1 else 0
  }

  /** The bit that is carried on: an odd number of backticks flips it. */
  function EndsInside(line: string, startsInside: bool): bool {
    startsInside != (Ticks(line, |line|) % 2 == 1)
  }

  // ---- What it should mean: the parity of backticks ---------------------------------

  /** Whether the character at `i` stands inside a span, backticks being paired one by one. */
  ghost predicate Inside(line: string, startsInside: bool, i: nat)
    requires i <= |line|
  {
    startsInside != (Ticks(line, i) % 2 == 1)
  }

  /** Characters `a..b` are a maximal, non-empty run of inside characters that a backtick closes. */
  ghost predicate ClosedRun(line: string, startsInside: bool, a: int, b: int) {
    && 0 <= a < b < |line| && b == Find(line, TICK, a)
    && Inside(line, startsInside, a)
    && (a > 0 ==> line[a - 1] == TICK)
  }

  ghost predicate IsSpan(line: string, startsInside: bool, sp: Span) {
    var b := sp.end - 1;
    var a := b - |sp.content|;
    ClosedRun(line, startsInside, a, b) && sp.content == line[a..b] && sp.start == if a == 0 then 0 else a - 1
  }

  /**
    Two adjacent backticks, met outside a span, that are not followed by a third directly but
    are by another later on: the match takes the second one as an opener.
   */
  ghost predicate MisleadsAt(line: string, startsInside: bool, m: int) {
    && 0 <= m && m + 2 < |line| && !Inside(line, startsInside, m)
    && line[m] == TICK && line[m + 1] == TICK && line[m + 2] != TICK
    && exists k :: m + 2 < k < |line| && line[k] == TICK
  }

  ghost predicate Misleads(line: string, startsInside: bool, from: nat) {
    exists m :: from <= m && MisleadsAt(line, startsInside, m)
  }

  lemma {:induction false} TicksWithout(line: string, i: nat, k: nat)
    requires i <= k <= |line| && forall j :: i <= j < k ==> line[j] != TICK
    ensures Ticks(line, k) == Ticks(line, i)
  {
    if i < k {
      TicksWithout(line, i, k - 1);
    }
  }

  /** Nothing is inside from an outside position up to the next backtick. */
  lemma OutsideUntilTick(line: string, s: bool, i: nat, k: nat)
    requires i <= k <= |line| && forall j :: i <= j < k ==> line[j] != TICK
    ensures forall j :: i <= j <= k ==> Inside(line, s, j) == Inside(line, s, i)
  {
    forall j | i <= j <= k ensures Inside(line, s, j) == Inside(line, s, i) {
      TicksWithout(line, i, j);
    }
  }

  lemma TickToggles(line: string, s: bool, i: nat)
    requires i < |line|
    ensures Inside(line, s, i + 1) == (Inside(line, s, i) != (line[i] == TICK))
  {
  }

  function RunStart(sp: Span): int {
    sp.end - 1 - |sp.content|
  }

  /** The closed runs from outside position `i` on, read off the pairs of backticks. */
  ghost function Runs(line: string, i: nat): seq<Span>
    requires i <= |line|
    decreases |line| - i
  {
    var open := Find(line, TICK, i);
    if open == |line| then []
    else
      var close := Find(line, TICK, open + 1);
      if close == |line| then []
      else (if close > open + 1 then [Span(open, close + 1, line[open + 1..close])] else []) + Runs(line, close + 1)
  }

  /** The backticks next to outside position `i`, and what is inside around them. */
  lemma NextPair(line: string, s: bool, i: nat, open: nat, close: nat)
    requires i <= |line| && !Inside(line, s, i)
    requires open == Find(line, TICK, i) < |line| && close == Find(line, TICK, open + 1)
    ensures !Inside(line, s, open)
    ensures Inside(line, s, open + 1) && Inside(line, s, close)
    ensures close < |line| ==> !Inside(line, s, close + 1)
  {
    OutsideUntilTick(line, s, i, open);
    TickToggles(line, s, open);
    OutsideUntilTick(line, s, open + 1, close);
    if close < |line| {
      TickToggles(line, s, close);
    }
  }

  /** A closed run behind an outside position is the next pair's, or lies behind that pair. */
  lemma RunBehind(line: string, s: bool, i: nat, sp: Span)
    requires i <= |line| && !Inside(line, s, i) && IsSpan(line, s, sp) && RunStart(sp) > i
    ensures var open := Find(line, TICK, i);
      open < |line| &&
      var close := Find(line, TICK, open + 1);
      close < |line| && (RunStart(sp) > close + 1 || (close > open + 1 && sp == Span(open, close + 1, line[open + 1..close])))
  {
    var open := Find(line, TICK, i);
    var a, b := RunStart(sp), sp.end - 1;
    assert line[a - 1] == TICK;
    var close := Find(line, TICK, open + 1);
    NextPair(line, s, i, open, close);
    assert a != close + 1;
    if a == open + 1 {
      assert close == b;
    }
  }

  lemma PairIsSpan(line: string, s: bool, i: nat, open: nat, close: nat)
    requires i <= |line| && !Inside(line, s, i)
    requires open == Find(line, TICK, i) < |line| && open + 1 < close == Find(line, TICK, open + 1) < |line|
    ensures IsSpan(line, s, Span(open, close + 1, line[open + 1..close]))
  {
    NextPair(line, s, i, open, close);
  }

  lemma InNextRun(line: string, i: nat, open: nat, close: nat, sp: Span)
    requires i <= |line| && open == Find(line, TICK, i) < |line| && close == Find(line, TICK, open + 1) < |line|
    ensures sp in Runs(line, i) <==>
      (close > open + 1 && sp == Span(open, close + 1, line[open + 1..close])) || sp in Runs(line, close + 1)
  {
    NextRun(line, i, open, close);
  }

  lemma RunsHavePairs(line: string, i: nat)
    requires i <= |line| && Runs(line, i) != []
    ensures Find(line, TICK, i) < |line| && Find(line, TICK, Find(line, TICK, i) + 1) < |line|
  {
  }

  lemma {:induction false} RunIsSpan(line: string, s: bool, i: nat, sp: Span)
    requires i <= |line| && !Inside(line, s, i) && sp in Runs(line, i)
    ensures IsSpan(line, s, sp) && RunStart(sp) > i
    decreases |line| - i
  {
    hide Runs;
    RunsHavePairs(line, i);
    var open := Find(line, TICK, i);
    var close := Find(line, TICK, open + 1);
    InNextRun(line, i, open, close, sp);
    if sp in Runs(line, close + 1) {
      NextPair(line, s, i, open, close);
      RunIsSpan(line, s, close + 1, sp);
    } else {
      PairIsSpan(line, s, i, open, close);
    }
  }

  lemma {:induction false} SpanIsRun(line: string, s: bool, i: nat, sp: Span)
    requires i <= |line| && !Inside(line, s, i) && IsSpan(line, s, sp) && RunStart(sp) > i
    ensures sp in Runs(line, i)
    decreases |line| - i
  {
    hide *;
    RunBehind(line, s, i, sp);
    var open := Find(line, TICK, i);
    var close := Find(line, TICK, open + 1);
    InNextRun(line, i, open, close, sp);
    if RunStart(sp) > close + 1 {
      NextPair(line, s, i, open, close);
      SpanIsRun(line, s, close + 1, sp);
    }
  }

  lemma RunsAreSpans(line: string, s: bool, i: nat, sp: Span)
    requires i <= |line| && !Inside(line, s, i)
    ensures sp in Runs(line, i) <==> IsSpan(line, s, sp) && RunStart(sp) > i
  {
    hide *;
    if sp in Runs(line, i) {
      RunIsSpan(line, s, i, sp);
    }
    if IsSpan(line, s, sp) && RunStart(sp) > i {
      SpanIsRun(line, s, i, sp);
    }
  }

  lemma NextMatch(line: string, i: nat, open: nat, close: nat)
    requires i <= |line| && open == Find(line, TICK, i) < |line| && close == Find(line, TICK, open + 1) < |line|
    ensures Matches(line, i) ==
      if close == open + 1 then Matches(line, close)
      else [Span(open, close + 1, line[open + 1..close])] + Matches(line, close + 1)
  {
  }

  lemma NextRun(line: string, i: nat, open: nat, close: nat)
    requires i <= |line| && open == Find(line, TICK, i) < |line| && close == Find(line, TICK, open + 1) < |line|
    ensures Runs(line, i) ==
      if close == open + 1 then Runs(line, close + 1)
      else [Span(open, close + 1, line[open + 1..close])] + Runs(line, close + 1)
  {
  }

  lemma NoPair(line: string, i: nat)
    requires i <= |line|
    requires Find(line, TICK, i) == |line| || Find(line, TICK, Find(line, TICK, i) + 1) == |line|
    ensures Matches(line, i) == [] == Runs(line, i)
  {
  }

  /** With no misleading pair ahead, the matches are the runs. */
  lemma {:induction false} MatchesAreRuns(line: string, s: bool, i: nat)
    requires i <= |line| && !Inside(line, s, i) && !Misleads(line, s, i)
    ensures Matches(line, i) == Runs(line, i)
    decreases |line| - i
  {
    hide Matches;
    hide Runs;
    var open := Find(line, TICK, i);
    if open == |line| || Find(line, TICK, open + 1) == |line| {
      NoPair(line, i);
    } else {
      var close := Find(line, TICK, open + 1);
      NextPair(line, s, i, open, close);
      NextMatch(line, i, open, close);
      NextRun(line, i, open, close);
      MatchesAreRuns(line, s, close + 1);
      if close == open + 1 {
        var next := Find(line, TICK, close + 1);
        if next < |line| {
          assert next > close + 1 ==> MisleadsAt(line, s, open);
          NextMatch(line, close, close, next);
        } else {
          NoPair(line, close);
          NoPair(line, close + 1);
        }
      }
    }
  }

  /** The next pair encloses something, or its third neighbour is a backtick too, or it misleads. */
  lemma MisleadIsAhead(line: string, s: bool, i: nat, m: nat)
    requires i <= m && i <= |line| && !Inside(line, s, i) && MisleadsAt(line, s, m)
    ensures var open := Find(line, TICK, i);
      open < |line| &&
      var close := Find(line, TICK, open + 1);
      && close < |line|
      && (close > open + 1 ==> m > close)
      && (close == open + 1 ==> close + 1 < |line|)
      && (close == open + 1 && line[close + 1] == TICK ==> m > close)
      && (close == open + 1 && line[close + 1] != TICK ==> close + 1 < Find(line, TICK, close + 1) < |line|)
  {
    var open := Find(line, TICK, i);
    assert m >= open;
    var close := Find(line, TICK, open + 1);
    NextPair(line, s, i, open, close);
    if m > open {
      assert close <= m;
      assert close != m;
    }
  }

  lemma OutsideIsNoSpan(line: string, s: bool, sp: Span)
    requires 0 < sp.end && sp.start + 1 <= sp.end - 1 <= |line| && sp.content == line[sp.start + 1..sp.end - 1]
    requires !Inside(line, s, sp.start + 1)
    ensures !IsSpan(line, s, sp)
  {
  }

  /** A misleading pair ahead is reached in step, and then a span is reported that is no run. */
  lemma {:induction false} MisledMatch(line: string, s: bool, i: nat, m: nat) returns (sp: Span)
    requires i <= m && i <= |line| && !Inside(line, s, i) && MisleadsAt(line, s, m)
    ensures sp in Matches(line, i) && !IsSpan(line, s, sp)
    decreases |line| - i
  {
    hide *;
    MisleadIsAhead(line, s, i, m);
    var open := Find(line, TICK, i);
    var close := Find(line, TICK, open + 1);
    NextPair(line, s, i, open, close);
    NextMatch(line, i, open, close);
    if close > open + 1 {
      sp := MisledMatch(line, s, close + 1, m);
    } else if line[close + 1] == TICK {
      NextMatch(line, close, close, close + 1);
      sp := MisledMatch(line, s, close + 1, m);
    } else {
      var next := Find(line, TICK, close + 1);
      NextMatch(line, close, close, next);
      sp := Span(close, next + 1, line[close + 1..next]);
      OutsideIsNoSpan(line, s, sp);
    }
  }

  /**
    Exactly when pairing by match agrees with the parity of backticks: the spans reported for
    a line are its closed runs if and only if no misleading pair of backticks is on it.
   */
  lemma SpansAreClosedRuns(line: string, s: bool)
    ensures (forall sp :: sp in CodeSpans(line, s) <==> IsSpan(line, s, sp)) <==> !Misleads(line, s, 0)
  {
    var first := FirstOutside(line, s);
    if first <= |line| {
      if m: nat :| first <= m && MisleadsAt(line, s, m) {
        var sp := MisledMatch(line, s, first, m);
        assert sp in CodeSpans(line, s);
      } else {
        assert !Misleads(line, s, 0);
        forall sp ensures sp in CodeSpans(line, s) <==> IsSpan(line, s, sp) {
          SpansOf(line, s, sp);
        }
      }
    } else {
      OutsideUntilTick(line, s, 0, |line|);
    }
  }

  /** The first position at or after which spans open on this line; past the end if there is none. */
  ghost function FirstOutside(line: string, s: bool): (i: nat)
    ensures i <= |line| ==> !Inside(line, s, i)
    ensures forall m: nat :: m < i && m < |line| ==> !MisleadsAt(line, s, m)
  {
    if s then
      var close := Find(line, TICK, 0);
      OutsideUntilTick(line, s, 0, close);
      if close < |line| then TickToggles(line, s, close); close + 1 else |line| + 1
    else 0
  }

  lemma SpansOf(line: string, s: bool, sp: Span)
    requires FirstOutside(line, s) <= |line| && !Misleads(line, s, FirstOutside(line, s))
    ensures sp in CodeSpans(line, s) <==> IsSpan(line, s, sp)
  {
    var first := FirstOutside(line, s);
    MatchesAreRuns(line, s, first);
    RunsAreSpans(line, s, first, sp);
    hide Runs;
    hide Misleads;
    hide Matches;
    hide Ticks;
    if s {
      TailSpan(line, first, sp);
    }
  }

  /** On a line that begins inside a span, a span starts behind the first backtick or is the tail before it. */
  lemma TailSpan(line: string, first: nat, sp: Span)
    requires first == FirstOutside(line, true) <= |line|
    ensures IsSpan(line, true, sp) && RunStart(sp) <= first ==> sp == Span(0, first, line[..first - 1]) && first > 1
    ensures first > 1 ==> IsSpan(line, true, Span(0, first, line[..first - 1]))
  {
    assert Inside(line, true, 0);
    hide Ticks;
    hide Inside;
    var close := Find(line, TICK, 0);
    if IsSpan(line, true, sp) && RunStart(sp) <= first {
      RunFromFirst(line, sp.end - 1 - |sp.content|, sp.end - 1, close);
    }
  }

  /** A run that starts before the line's first backtick ends at it. */
  lemma RunFromFirst(line: string, a: int, b: int, close: nat)
    requires close == Find(line, TICK, 0) < |line| && ClosedRun(line, true, a, b) && a <= close + 1
    ensures a == 0 && b == close
  {
    OutsideUntilTick(line, true, 0, close);
    TickToggles(line, true, close);
    hide Ticks;
  }

  ghost predicate NoAdjacentTicks(line: string) {
    forall i :: 0 <= i && i + 1 < |line| && line[i] == TICK ==> line[i + 1] != TICK
  }

  /** A misleading line: what stands between the last two of three backticks is taken for a span, and is none. */
  const MisleadingLine := "``a`"

  lemma AdjacentTicksMislead()
    ensures Misleads(MisleadingLine, false, 0) && CodeSpans(MisleadingLine, false) == [Span(1, 4, "a")]
    ensures forall sp :: !IsSpan(MisleadingLine, false, sp)
  {
    var line := MisleadingLine;
    assert Ticks(line, 0) == 0 && Ticks(line, 1) == 1 && Ticks(line, 2) == 2 && Ticks(line, 3) == 2;
    assert MisleadsAt(line, false, 0) by {
      assert line[3] == TICK;
    }
    assert Find(line, TICK, 0) == 0 && Find(line, TICK, 1) == 1 && Find(line, TICK, 2) == 3 && Find(line, TICK, 4) == 4;
    assert Matches(line, 4) == [] && line[2..3] == "a";
    assert Matches(line, 1) == [Span(1, 4, "a")];
  }

  /** The documented condition: single backticks only. */
  lemma SingleTicksNeverMislead(line: string, s: bool)
    requires NoAdjacentTicks(line)
    ensures forall sp :: sp in CodeSpans(line, s) <==> IsSpan(line, s, sp)
  {
    SpansAreClosedRuns(line, s);
  }

  // ---- The two sides of an anchor ----------------------------------------------------

  /** An anchor stands at `p..q`; it holds no backtick. */
  ghost predicate AnchorAt(line: string, p: nat, q: nat) {
    p < q <= |line| && forall j :: p <= j < q ==> line[j] != TICK
  }

  lemma {:induction false} TicksOfPrefix(line: string, p: nat, i: nat)
    requires i <= p <= |line|
    ensures Ticks(line[..p], i) == Ticks(line, i)
  {
    if i > 0 {
      TicksOfPrefix(line, p, i - 1);
    }
  }

  lemma {:induction false} TicksOfSuffix(line: string, q: nat, i: nat)
    requires q + i <= |line|
    ensures Ticks(line, q + i) == Ticks(line, q) + Ticks(line[q..], i)
  {
    if i > 0 {
      TicksOfSuffix(line, q, i - 1);
    }
  }

  lemma OddSum(x: nat, y: nat)
    ensures ((x + y) % 2 == 1) == ((x % 2 == 1) != (y % 2 == 1))
  {
  }

  /** The state `before` leaves is the state of the whole line at the anchor and behind it. */
  lemma EndsInsideAtAnchor(line: string, s: bool, p: nat, q: nat)
    requires AnchorAt(line, p, q)
    ensures EndsInside(line[..p], s) == Inside(line, s, p) == Inside(line, s, q)
  {
    TicksOfPrefix(line, p, p);
    OutsideUntilTick(line, s, p, q);
  }

  /** Read from that state, what stands behind the anchor is inside where the whole line says so. */
  lemma InsideBehind(line: string, s: bool, q: nat, i: nat)
    requires q + i <= |line|
    ensures Inside(line[q..], Inside(line, s, q), i) == Inside(line, s, q + i)
  {
    TicksOfSuffix(line, q, i);
    OddSum(Ticks(line, q), Ticks(line[q..], i));
  }

  lemma FindIs(line: string, i: nat, b: nat)
    requires i <= b < |line| && line[b] == TICK && forall j :: i <= j < b ==> line[j] != TICK
    ensures Find(line, TICK, i) == b
  {
  }

  /** What is read before the anchor: the whole line's spans that end there. */
  lemma SpansBefore(line: string, s: bool, p: nat, sp: Span)
    requires p <= |line|
    ensures IsSpan(line[..p], s, sp) <==> IsSpan(line, s, sp) && sp.end <= p
  {
    hide Ticks;
    var a, b := RunStart(sp), sp.end - 1;
    if 0 <= a < b < p {
      TicksOfPrefix(line, p, a);
      if b == Find(line[..p], TICK, a) {
        FindIs(line, a, b);
      }
      if b == Find(line, TICK, a) {
        FindIs(line[..p], a, b);
      }
      assert line[..p][a..b] == line[a..b];
    }
  }

  lemma FindBehind(line: string, q: nat, a: nat, b: nat)
    requires q <= |line| && a <= b < |line| - q
    ensures Find(line[q..], TICK, a) == b <==> Find(line, TICK, q + a) == q + b
  {
    var after := line[q..];
    if Find(after, TICK, a) == b {
      assert forall j :: q + a <= j < q + b ==> line[j] == after[j - q];
      FindIs(line, q + a, q + b);
    }
    if Find(line, TICK, q + a) == q + b {
      FindIs(after, a, b);
    }
  }

  lemma FindFromRun(line: string, open: nat, q: nat, b: nat)
    requires open <= q <= b < |line| && forall j :: open <= j < q ==> line[j] != TICK
    ensures Find(line, TICK, open) == b <==> Find(line, TICK, q) == b
  {
    if Find(line, TICK, q) == b {
      FindIs(line, open, b);
    }
    if Find(line, TICK, open) == b {
      FindIs(line, q, b);
    }
  }

  /** A whole-line span, seen from behind the anchor: moved, or clipped if the anchor is in it. */
  ghost predicate SeenBehind(line: string, p: nat, q: nat, w: Span, sp: Span) {
    && q + 1 < w.end <= |line|
    && if RunStart(w) <= p then sp == Span(0, w.end - q, line[q..w.end - 1])
       else q <= w.start && sp == Span(w.start - q, w.end - q, w.content)
  }

  /** Where the run at an inside position opens. */
  lemma {:induction false} OpenerOf(line: string, s: bool, i: nat) returns (a: nat)
    requires i <= |line| && Inside(line, s, i)
    ensures a <= i && Inside(line, s, a) && (a > 0 ==> line[a - 1] == TICK)
    ensures forall j :: a <= j < i ==> line[j] != TICK
  {
    if i == 0 || line[i - 1] == TICK {
      a := i;
    } else {
      a := OpenerOf(line, s, i - 1);
    }
  }

  lemma MovedSpan(line: string, s: bool, p: nat, q: nat, sp: Span)
    requires AnchorAt(line, p, q) && IsSpan(line[q..], Inside(line, s, q), sp) && RunStart(sp) > 0
    ensures var w := Span(sp.start + q, sp.end + q, sp.content); IsSpan(line, s, w) && SeenBehind(line, p, q, w, sp)
  {
    hide Ticks;
    hide Find;
    var a, b := RunStart(sp), sp.end - 1;
    InsideBehind(line, s, q, a);
    FindBehind(line, q, a, b);
    assert line[q + a..q + b] == line[q..][a..b];
  }

  lemma ClippedSpan(line: string, s: bool, p: nat, q: nat, sp: Span) returns (w: Span)
    requires AnchorAt(line, p, q) && Inside(line, s, p) == Inside(line, s, q)
    requires IsSpan(line[q..], Inside(line, s, q), sp) && RunStart(sp) == 0
    ensures IsSpan(line, s, w) && SeenBehind(line, p, q, w, sp)
  {
    hide Ticks;
    hide Find;
    var b := sp.end - 1;
    InsideBehind(line, s, q, 0);
    FindBehind(line, q, 0, b);
    var open := OpenerOf(line, s, p);
    FindFromRun(line, open, q, q + b);
    w := Span(if open == 0 then 0 else open - 1, q + b + 1, line[open..q + b]);
    assert line[q..q + b] == line[q..][0..b];
  }

  /** What is read behind the anchor is what the whole line has there. */
  lemma SpansBehind(line: string, s: bool, p: nat, q: nat, sp: Span) returns (w: Span)
    requires AnchorAt(line, p, q) && IsSpan(line[q..], EndsInside(line[..p], s), sp)
    ensures IsSpan(line, s, w) && SeenBehind(line, p, q, w, sp)
  {
    EndsInsideAtAnchor(line, s, p, q);
    if RunStart(sp) > 0 {
      MovedSpan(line, s, p, q, sp);
      w := Span(sp.start + q, sp.end + q, sp.content);
    } else {
      w := ClippedSpan(line, s, p, q, sp);
    }
  }

  /** And conversely, nothing the whole line has behind the anchor is missed. */
  lemma SpansSeenBehind(line: string, s: bool, p: nat, q: nat, w: Span, sp: Span)
    requires AnchorAt(line, p, q) && IsSpan(line, s, w) && SeenBehind(line, p, q, w, sp)
    ensures IsSpan(line[q..], EndsInside(line[..p], s), sp)
  {
    EndsInsideAtAnchor(line, s, p, q);
    hide EndsInside;
    hide Inside;
    hide IsSpan;
    if RunStart(w) <= p {
      TailSeenBehind(line, s, p, q, w, sp);
    } else {
      SpanSeenBehind(line, s, p, q, w, sp);
    }
  }

  lemma TailSeenBehind(line: string, s: bool, p: nat, q: nat, w: Span, sp: Span)
    requires AnchorAt(line, p, q) && IsSpan(line, s, w) && SeenBehind(line, p, q, w, sp) && RunStart(w) <= p
    ensures IsSpan(line[q..], Inside(line, s, q), sp)
  {
    hide Ticks;
    hide Find;
    var b := w.end - 1 - q;
    OutsideUntilTick(line, s, RunStart(w), w.end - 1);
    FindFromRun(line, RunStart(w), q, w.end - 1);
    InsideBehind(line, s, q, 0);
    FindBehind(line, q, 0, b);
    assert line[q..][0..b] == line[q..w.end - 1];
  }

  lemma SpanSeenBehind(line: string, s: bool, p: nat, q: nat, w: Span, sp: Span)
    requires AnchorAt(line, p, q) && IsSpan(line, s, w) && SeenBehind(line, p, q, w, sp) && RunStart(w) > p
    ensures IsSpan(line[q..], Inside(line, s, q), sp)
  {
    hide Ticks;
    hide Find;
    var a, b := RunStart(sp), sp.end - 1;
    InsideBehind(line, s, q, a);
    FindBehind(line, q, a, b);
    assert line[q..][a..b] == line[q + a..q + b];
  }

  /** A pair that misleads one side of the anchor misleads the line. */
  lemma SidesMislead(line: string, s: bool, p: nat, q: nat)
    requires AnchorAt(line, p, q)
    ensures Misleads(line[..p], s, 0) ==> Misleads(line, s, 0)
    ensures Misleads(line[q..], EndsInside(line[..p], s), 0) ==> Misleads(line, s, 0)
  {
    hide Ticks;
    EndsInsideAtAnchor(line, s, p, q);
    if m: nat :| MisleadsAt(line[..p], s, m) {
      TicksOfPrefix(line, p, m);
      assert MisleadsAt(line, s, m);
    }
    if m: nat :| MisleadsAt(line[q..], EndsInside(line[..p], s), m) {
      InsideBehind(line, s, q, m);
      var k :| m + 2 < k < |line[q..]| && line[q..][k] == TICK;
      assert line[q + k] == TICK;
      assert MisleadsAt(line, s, q + m);
    }
  }

  /**
    Cutting a line around an anchor loses and invents nothing: scanned from the line's state,
    `before` has the line's spans that end there; scanned from the state `before` leaves,
    `after` has those that start there and the tail of the one the anchor stands in.
   */
  lemma CutAgreesWithWholeLine(line: string, s: bool, p: nat, q: nat, sp: Span)
    requires AnchorAt(line, p, q) && !Misleads(line, s, 0)
    ensures sp in CodeSpans(line[..p], s) <==> sp in CodeSpans(line, s) && sp.end <= p
    ensures sp in CodeSpans(line[q..], EndsInside(line[..p], s)) <==>
      exists w :: w in CodeSpans(line, s) && SeenBehind(line, p, q, w, sp)
  {
    hide IsSpan;
    hide CodeSpans;
    hide SeenBehind;
    hide EndsInside;
    SidesMislead(line, s, p, q);
    SpansAreClosedRuns(line, s);
    SpansAreClosedRuns(line[..p], s);
    SpansAreClosedRuns(line[q..], EndsInside(line[..p], s));
    SpansBefore(line, s, p, sp);
    if IsSpan(line[q..], EndsInside(line[..p], s), sp) {
      var w := SpansBehind(line, s, p, q, sp);
    }
    forall w | w in CodeSpans(line, s) && SeenBehind(line, p, q, w, sp)
      ensures IsSpan(line[q..], EndsInside(line[..p], s), sp)
    {
      SpansSeenBehind(line, s, p, q, w, sp);
    }
  }

  /** The spans come in written order and do not overlap. */
  ghost predicate InWrittenOrder(spans: seq<Span>) {
    && (forall i :: 0 <= i < |spans| ==> spans[i].start < spans[i].end)
    && (forall i, j :: 0 <= i < j < |spans| ==> spans[i].end <= spans[j].start)
  }

  lemma OneMoreInOrder(sp: Span, rest: seq<Span>)
    requires sp.start < sp.end && InWrittenOrder(rest) && forall next :: next in rest ==> sp.end <= next.start
    ensures InWrittenOrder([sp] + rest)
  {
    assert forall k :: 0 <= k < |rest| ==> rest[k] in rest;
  }

  lemma {:induction false} MatchesInOrder(line: string, i: nat)
    requires i <= |line|
    ensures InWrittenOrder(Matches(line, i))
    ensures forall sp :: sp in Matches(line, i) ==> i <= sp.start && sp.end <= |line|
    decreases |line| - i
  {
    hide Matches;
    var open := Find(line, TICK, i);
    if open == |line| || Find(line, TICK, open + 1) == |line| {
      NoPair(line, i);
    } else {
      var close := Find(line, TICK, open + 1);
      NextMatch(line, i, open, close);
      hide Find;
      if close == open + 1 {
        MatchesInOrder(line, close);
      } else {
        MatchesInOrder(line, close + 1);
        OneMoreInOrder(Span(open, close + 1, line[open + 1..close]), Matches(line, close + 1));
      }
    }
  }

  lemma SpansInOrder(line: string, s: bool)
    ensures InWrittenOrder(CodeSpans(line, s))
    ensures forall sp :: sp in CodeSpans(line, s) ==> sp.end <= |line|
  {
    hide Matches;
    if s {
      var close := Find(line, TICK, 0);
      if close < |line| {
        MatchesInOrder(line, close + 1);
        if close > 0 {
          OneMoreInOrder(Span(0, close + 1, line[..close]), Matches(line, close + 1));
        }
      }
    } else {
      MatchesInOrder(line, 0);
    }
  }
}
