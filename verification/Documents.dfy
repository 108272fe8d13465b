/**
  The line loop of `Checker.run` in `scripts/check_doc_line_anchors.py`, and the anchors it
  collects from each line.
 */
module Documents {
  import opened Common
  import opened Anchors
  import opened Decimal
  import opened Spans
  import opened Symbols
  import opened Text

  // ---- Fences -------------------------------------------------------------------------

  /** A fence delimiter at the start of a line: its marker, and where the marker ends. */
  datatype Fence = Fence(marker: string, end: nat)

  function LeadingSpaces(line: string): (n: nat)
    ensures n <= |line|
  {
    if line == "" || !IsSpace(line[0]) then 0 else 1 + LeadingSpaces(line[1..])
  }

  /** The end of the run of `c` that starts at `i`. */
  function RunEnd(line: string, c: char, i: nat): (k: nat)
    requires i <= |line|
    ensures i <= k <= |line|
    decreases |line| - i
  {
    if i < |line| && line[i] == c then RunEnd(line, c, i + 1) else i
  }

  /** At most three spaces, then three or more backticks or tildes. */
  function FenceOn(line: string): (fence: Option<Fence>)
    ensures fence.Some? ==> |fence.value.marker| >= 3 && fence.value.end <= |line|
  {
    var w := LeadingSpaces(line);
    if w > 3 || w == |line| || line[w] !in "`~" then None
    else
      var end := RunEnd(line, line[w], w);
      if end - w < 3 then None else Some(Fence(line[w..end], end))
  }

  /** A closing fence: the same character, no shorter, and nothing behind it. */
  predicate ClosesFence(line: string, marker: string)
    requires marker != ""
  {
    var f := FenceOn(line);
    f.Some? && f.value.marker[0] == marker[0] && |f.value.marker| >= |marker| && Strip(line[f.value.end..]) == ""
  }

  /** The marker of the fenced block that line `k` stands in, if any. */
  function FenceBefore(lines: seq<string>, k: nat): (marker: Option<string>)
    requires k <= |lines|
    ensures marker.Some? ==> marker.value != ""
  {
    if k == 0 then None
    else
      var marker := FenceBefore(lines, k - 1);
      if marker.Some? then (if ClosesFence(lines[k - 1], marker.value) then None else marker)
      else if FenceOn(lines[k - 1]).Some? then Some(FenceOn(lines[k - 1]).value.marker)
      else None
  }

  // ---- The inline state: parity over the paragraph -----------------------------------

  /** A line of running text: not fenced, not a fence, not blank. */
  predicate IsText(lines: seq<string>, k: nat)
    requires k < |lines|
  {
    FenceBefore(lines, k).None? && FenceOn(lines[k]).None? && !IsBlank(lines[k])
  }

  /** Where the unbroken text that ends before line `k` begins. */
  ghost function ParagraphStart(lines: seq<string>, k: nat): (j: nat)
    requires k <= |lines|
    ensures j <= k
    ensures forall i :: j <= i < k ==> IsText(lines, i)
    ensures j > 0 ==> !IsText(lines, j - 1)
  {
    if k == 0 || !IsText(lines, k - 1) then k else ParagraphStart(lines, k - 1)
  }

  /** Lines `j..k`, each with its line break. */
  ghost function Joined(lines: seq<string>, j: nat, k: nat): string
    requires j <= k <= |lines|
  {
    if j == k then "" else Joined(lines, j, k - 1) + lines[k - 1] + "\n"
  }

  /** The parity of all backticks of the paragraph that line `k` would continue. */
  ghost predicate CarriedInto(lines: seq<string>, k: nat)
    requires k <= |lines|
  {
    var text := Joined(lines, ParagraphStart(lines, k), k);
    Inside(text, false, |text|)
  }

  /** Whether line `k` begins inside a code span: never in a fenced block or at a paragraph break. */
  ghost predicate BeginsInside(lines: seq<string>, k: nat)
    requires k < |lines|
  {
    FenceBefore(lines, k).None? && !IsBlank(lines[k]) && CarriedInto(lines, k)
  }

  lemma TicksOfConcat(xs: string, ys: string)
    ensures Ticks(xs + ys, |xs + ys|) == Ticks(xs, |xs|) + Ticks(ys, |ys|)
  {
    assert (xs + ys)[..|xs|] == xs && (xs + ys)[|xs|..] == ys;
    TicksOfPrefix(xs + ys, |xs|, |xs|);
    TicksOfSuffix(xs + ys, |xs|, |ys|);
  }

  lemma NoTicksInBlank(s: string)
    requires IsBlank(s)
    ensures Ticks(s, |s|) == 0
  {
    BlankIsAllSpace(s);
    TicksWithout(s, 0, |s|);
  }

  lemma NothingCarried(lines: seq<string>)
    ensures !CarriedInto(lines, 0)
    ensures !Inside("", false, 0)
  {
  }

  lemma NoTicksInBreak()
    ensures Ticks("\n", 1) == 0
  {
    assert Ticks("\n", 0) == 0;
  }

  /** How the carried bit goes on: through a line of text by its backticks; it is lost everywhere else. */
  lemma CarriedStep(lines: seq<string>, k: nat)
    requires k < |lines|
    ensures CarriedInto(lines, k + 1) == (IsText(lines, k) && EndsInside(lines[k], CarriedInto(lines, k)))
  {
    hide Ticks;
    hide FenceOn;
    hide IsBlank;
    if IsText(lines, k) {
      var j := ParagraphStart(lines, k);
      var text := Joined(lines, j, k);
      assert ParagraphStart(lines, k + 1) == j;
      assert Joined(lines, j, k + 1) == text + lines[k] + "\n";
      TicksOfConcat(text + lines[k], "\n");
      TicksOfConcat(text, lines[k]);
      NoTicksInBreak();
      OddSum(Ticks(text, |text|), Ticks(lines[k], |lines[k]|));
    } else {
      NothingCarried([]);
    }
  }

  // ---- The anchors of one line ---------------------------------------------------------

  /** A `path.ext:NNN` match of the anchor pattern, at characters `start..end` of its line. */
  datatype Match = Match(start: nat, end: nat, path: string, first: nat, last: Option<nat>)

  /** An anchor of a line, where it is written, and its own extent if it is a path anchor. */
  datatype Entry = Entry(at: nat, anchor: Anchor, extent: Option<(nat, nat)>)

  datatype Numbers = Numbers(first: nat, last: Option<nat>)

  /** A span whose whole content is `:NNN` or `:NNN-MMM`. */
  function ContinuationOf(content: string): Option<Numbers> {
    var s := Strip(content);
    if s == "" || s[0] != ':' then None
    else
      var k := DigitsEnd(s, 1);
      if k == 1 then None
      else if k == |s| then Some(Numbers(ValueOf(s[1..k]), None))
      else if s[k] != '-' then None
      else
        var n := DigitsEnd(s, k + 1);
        if n == k + 1 || n < |s| then None else Some(Numbers(ValueOf(s[1..k]), Some(ValueOf(s[k + 1..n]))))
  }

  /** An anchor as it is first built: unresolved, unjudged. */
  function NewAnchor(doc: string, line: nat, path: string, numbers: Numbers, continuation: bool): Anchor {
    Anchor(doc, line, path, numbers.first, numbers.last, None, None, continuation, Ok, "")
  }

  function FromMatch(doc: string, line: nat): Match -> Entry {
    (m: Match) => Entry(m.start, NewAnchor(doc, line, m.path, Numbers(m.first, m.last), false), Some((m.start, m.end)))
  }

  function StartsBefore(at: nat): Match -> bool {
    (m: Match) => m.start < at
  }

  /** The entry of a bare continuation, if a path anchor precedes it. */
  function Attached(doc: string, line: nat, matches: seq<Match>, sp: Span): Option<Entry> {
    var numbers := ContinuationOf(sp.content);
    var preceding := Filter(matches, StartsBefore(sp.start));
    if numbers.None? || preceding == [] then None
    else Some(Entry(sp.start, NewAnchor(doc, line, preceding[|preceding| - 1].path, numbers.value, true), None))
  }

  /** The continuations that attach, in the order of their spans. */
  function AttachedAll(doc: string, line: nat, matches: seq<Match>, spans: seq<Span>): seq<Entry> {
    if spans == [] then []
    else
      var last := Attached(doc, line, matches, spans[|spans| - 1]);
      AttachedAll(doc, line, matches, spans[..|spans| - 1]) + if last.Some? then [last.value] else []
  }

  function CountContinuations(spans: seq<Span>): nat {
    if spans == [] then 0
    else CountContinuations(spans[..|spans| - 1]) + if ContinuationOf(spans[|spans| - 1].content).Some? then 1 else 0
  }

  ghost predicate SortedByPlace(entries: seq<Entry>) {
    forall i, j :: 0 <= i < j < |entries| ==> entries[i].at <= entries[j].at
  }

  /** Insert behind the entries that are written no later. */
  function Insert(e: Entry, entries: seq<Entry>): seq<Entry> {
    if entries == [] || entries[|entries| - 1].at <= e.at then entries + [e]
    else Insert(e, entries[..|entries| - 1]) + [entries[|entries| - 1]]
  }

  /** `list.sort` by place: stable. */
  function SortByPlace(entries: seq<Entry>): seq<Entry> {
    if entries == [] then [] else Insert(entries[|entries| - 1], SortByPlace(entries[..|entries| - 1]))
  }

  lemma {:induction false} InsertAdds(e: Entry, entries: seq<Entry>)
    ensures multiset(Insert(e, entries)) == multiset(entries) + multiset{e}
    ensures forall x :: x in Insert(e, entries) ==> x in entries || x == e
  {
    if entries != [] && entries[|entries| - 1].at > e.at {
      var init, last := entries[..|entries| - 1], entries[|entries| - 1];
      InsertAdds(e, init);
      assert entries == init + [last];
    }
  }

  lemma {:induction false} InsertKeepsSorted(e: Entry, entries: seq<Entry>)
    requires SortedByPlace(entries)
    ensures SortedByPlace(Insert(e, entries))
  {
    if entries != [] && entries[|entries| - 1].at > e.at {
      var init, last := entries[..|entries| - 1], entries[|entries| - 1];
      InsertKeepsSorted(e, init);
      InsertAdds(e, init);
      var front := Insert(e, init);
      forall i | 0 <= i < |front| ensures front[i].at <= last.at {
        assert front[i] in front;
      }
    }
  }

  lemma {:induction false} SortSorts(entries: seq<Entry>)
    ensures SortedByPlace(SortByPlace(entries))
    ensures multiset(SortByPlace(entries)) == multiset(entries)
  {
    if entries != [] {
      var init, last := entries[..|entries| - 1], entries[|entries| - 1];
      SortSorts(init);
      InsertKeepsSorted(last, SortByPlace(init));
      InsertAdds(last, SortByPlace(init));
      assert entries == init + [last];
    }
  }

  /** What one line must yield: its path anchors and attached continuations, in written order. */
  ghost predicate LineYields(doc: string, line: nat, text: string, matches: seq<Match>, inside: bool, entries: seq<Entry>) {
    && SortedByPlace(entries)
    && multiset(entries) == multiset(Map(FromMatch(doc, line), matches))
                          + multiset(AttachedAll(doc, line, matches, CodeSpans(text, inside)))
  }

  /** The number of continuations on a line that no path anchor precedes. */
  ghost function Silent(doc: string, line: nat, text: string, matches: seq<Match>, inside: bool): int {
    var spans := CodeSpans(text, inside);
    CountContinuations(spans) - |AttachedAll(doc, line, matches, spans)|
  }

  ghost function SilentBefore(doc: string, lines: seq<string>, matches: seq<seq<Match>>, k: nat): int
    requires k <= |lines| == |matches|
  {
    if k == 0 then 0
    else SilentBefore(doc, lines, matches, k - 1) + Silent(doc, k, lines[k - 1], matches[k - 1], BeginsInside(lines, k - 1))
  }

  class Checker {
    /** How many continuations have stayed silent. */
    var unattached: nat

    constructor ()
      ensures unattached == 0
    {
      unattached := 0;
    }

    method AnchorsOnLine(doc: string, line: nat, text: string, matches: seq<Match>, startsInside: bool) returns (entries: seq<Entry>)
      modifies this
      ensures LineYields(doc, line, text, matches, startsInside, entries)
      ensures unattached == old(unattached) + Silent(doc, line, text, matches, startsInside)
    {
      hide ContinuationOf;
      hide CodeSpans;
      var own := Map(FromMatch(doc, line), matches);
      entries := own;
      var spans := CodeSpans(text, startsInside);
      for i := 0 to |spans|
        invariant entries == own + AttachedAll(doc, line, matches, spans[..i])
        invariant unattached + |AttachedAll(doc, line, matches, spans[..i])| == old(unattached) + CountContinuations(spans[..i])
      {
        assert spans[..i + 1][..i] == spans[..i];
        var numbers := ContinuationOf(spans[i].content);
        if numbers.None? {
          continue;
        }
        var preceding := Filter(matches, StartsBefore(spans[i].start));
        if preceding == [] {
          unattached := unattached + 1;
          continue;
        }
        entries := entries + [Entry(spans[i].start, NewAnchor(doc, line, preceding[|preceding| - 1].path, numbers.value, true), None)];
      }
      assert spans[..|spans|] == spans;
      hide AttachedAll;
      hide SortByPlace;
      hide CountContinuations;
      SortSorts(entries);
      entries := SortByPlace(entries);
    }

    /** The line loop over one document: fences, blank lines and the carried bit. */
    method RunDocument(doc: string, lines: seq<string>, matches: seq<seq<Match>>, looksLikeSymbol: string -> bool)
      returns (here: seq<Anchor>, ghost parts: seq<seq<Entry>>)
      requires |matches| == |lines|
      requires forall k :: 0 <= k < |lines| ==> MatchesFit(lines[k], matches[k])
      modifies this
      ensures |parts| == |lines| && PartsYield(doc, lines, matches, parts)
      ensures here == Collected(lines, parts, |lines|, looksLikeSymbol)
      ensures unattached == old(unattached) + SilentBefore(doc, lines, matches, |lines|)
    {
      hide *;
      here, parts := [], [];
      NothingYielded(doc, lines, matches, looksLikeSymbol);
      NothingCarried(lines);
      var insideSpan := false;
      var fence: Option<string> := None;
      for k := 0 to |lines|
        invariant |parts| == k && PartsYield(doc, lines, matches, parts)
        invariant here == Collected(lines, parts, k, looksLikeSymbol)
        invariant unattached == old(unattached) + SilentBefore(doc, lines, matches, k)
        invariant fence == FenceBefore(lines, k)
        invariant fence.None? ==> insideSpan == CarriedInto(lines, k)
      {
        var text := lines[k];
        if fence.Some? {
          insideSpan := false;
        } else if Strip(text) == "" {
          insideSpan := false;
        }
        StateStep(lines, k);
        var entries := AnchorsOnLine(doc, k + 1, text, matches[k], insideSpan);
        EntriesFit(doc, k + 1, text, matches[k], insideSpan, entries);
        here := here + NamedAll(text, insideSpan, entries, looksLikeSymbol);
        CollectedStep(lines, parts, entries, k, looksLikeSymbol);
        SilentStep(doc, lines, matches, k);
        PartsStep(doc, lines, matches, parts, entries);
        parts := parts + [entries];
        if fence.Some? {
          if ClosesFence(text, fence.value) {
            fence := None;
          }
          continue;
        }
        var opener := FenceOn(text);
        if opener.Some? {
          fence := Some(opener.value.marker);
          continue;
        }
        insideSpan := EndsInside(text, insideSpan);
      }
    }
  }

  /** Every line read so far yields what it must, under the state it begins in. */
  ghost predicate PartsYield(doc: string, lines: seq<string>, matches: seq<seq<Match>>, parts: seq<seq<Entry>>)
    ensures PartsYield(doc, lines, matches, parts) ==>
      |parts| <= |lines| && forall k :: 0 <= k < |parts| ==> ExtentsFit(lines[k], parts[k])
  {
    && |parts| <= |lines| == |matches|
    && (forall k :: 0 <= k < |parts| ==> LineYields(doc, k + 1, lines[k], matches[k], BeginsInside(lines, k), parts[k]))
    && (forall k :: 0 <= k < |parts| ==> ExtentsFit(lines[k], parts[k]))
  }

  lemma NothingYielded(doc: string, lines: seq<string>, matches: seq<seq<Match>>, looksLikeSymbol: string -> bool)
    requires |matches| == |lines|
    ensures PartsYield(doc, lines, matches, []) && Collected(lines, [], 0, looksLikeSymbol) == []
    ensures SilentBefore(doc, lines, matches, 0) == 0 && FenceBefore(lines, 0).None?
  {
  }

  /** One step of the state: the fence and the carried bit. */
  lemma StateStep(lines: seq<string>, k: nat)
    requires k < |lines|
    ensures BeginsInside(lines, k) == (FenceBefore(lines, k).None? && Strip(lines[k]) != "" && CarriedInto(lines, k))
    ensures var fence := FenceBefore(lines, k);
      FenceBefore(lines, k + 1) ==
        if fence.Some? then (if ClosesFence(lines[k], fence.value) then None else fence)
        else if FenceOn(lines[k]).Some? then Some(FenceOn(lines[k]).value.marker)
        else None
    ensures FenceBefore(lines, k).None? && FenceOn(lines[k]).None? ==>
      CarriedInto(lines, k + 1) == EndsInside(lines[k], BeginsInside(lines, k))
    ensures FenceBefore(lines, k).Some? || FenceOn(lines[k]).Some? ==> !CarriedInto(lines, k + 1)
  {
    hide Ticks;
    hide FenceOn;
    hide Strip;
    hide CarriedInto;
    CarriedStep(lines, k);
    if IsBlank(lines[k]) {
      NoTicksInBlank(lines[k]);
    }
  }

  lemma SilentStep(doc: string, lines: seq<string>, matches: seq<seq<Match>>, k: nat)
    requires k < |lines| == |matches|
    ensures SilentBefore(doc, lines, matches, k + 1) ==
      SilentBefore(doc, lines, matches, k) + Silent(doc, k + 1, lines[k], matches[k], BeginsInside(lines, k))
  {
    hide Silent;
  }

  lemma PartsStep(doc: string, lines: seq<string>, matches: seq<seq<Match>>, parts: seq<seq<Entry>>, entries: seq<Entry>)
    requires PartsYield(doc, lines, matches, parts) && |parts| < |lines|
    requires var k := |parts|; LineYields(doc, k + 1, lines[k], matches[k], BeginsInside(lines, k), entries) && ExtentsFit(lines[k], entries)
    ensures PartsYield(doc, lines, matches, parts + [entries])
  {
    hide LineYields;
    hide ExtentsFit;
    hide BeginsInside;
  }

  predicate MatchesFit(text: string, matches: seq<Match>) {
    forall m :: m in matches ==> m.start <= m.end <= |text|
  }

  predicate ExtentsFit(text: string, entries: seq<Entry>) {
    forall e :: e in entries && e.extent.Some? ==> e.extent.value.0 <= e.extent.value.1 <= |text|
  }

  /** The entry's anchor with the symbol its neighbourhood names. */
  function Named(text: string, inside: bool, e: Entry, looksLikeSymbol: string -> bool): Anchor
    requires ExtentsFit(text, [e])
  {
    assert e in [e];
    if e.extent.None? then e.anchor
    else e.anchor.(symbol := SymbolOf(text, e.extent.value.0, e.extent.value.1, inside, looksLikeSymbol))
  }

  function NamedAll(text: string, inside: bool, entries: seq<Entry>, looksLikeSymbol: string -> bool): (anchors: seq<Anchor>)
    requires ExtentsFit(text, entries)
    ensures |anchors| == |entries|
  {
    seq(|entries|, i requires 0 <= i < |entries| => assert entries[i] in entries; Named(text, inside, entries[i], looksLikeSymbol))
  }

  /** The anchors of the first `k` lines, each line read under the state it begins in. */
  ghost function Collected(lines: seq<string>, parts: seq<seq<Entry>>, k: nat, looksLikeSymbol: string -> bool): seq<Anchor>
    requires k <= |parts| && k <= |lines| && forall i :: 0 <= i < k ==> ExtentsFit(lines[i], parts[i])
  {
    if k == 0 then []
    else Collected(lines, parts, k - 1, looksLikeSymbol)
         + NamedAll(lines[k - 1], BeginsInside(lines, k - 1), parts[k - 1], looksLikeSymbol)
  }

  lemma {:induction false} CollectedSame(lines: seq<string>, parts: seq<seq<Entry>>, more: seq<seq<Entry>>, k: nat, names: string -> bool)
    requires k <= |parts| && k <= |lines| && forall i :: 0 <= i < k ==> ExtentsFit(lines[i], parts[i])
    ensures Collected(lines, parts + more, k, names) == Collected(lines, parts, k, names)
  {
    if k > 0 {
      CollectedSame(lines, parts, more, k - 1, names);
    }
  }

  lemma CollectedStep(lines: seq<string>, parts: seq<seq<Entry>>, entries: seq<Entry>, k: nat, names: string -> bool)
    requires k == |parts| < |lines| && forall i :: 0 <= i < k ==> ExtentsFit(lines[i], parts[i])
    requires ExtentsFit(lines[k], entries)
    ensures Collected(lines, parts + [entries], k + 1, names)
         == Collected(lines, parts, k, names) + NamedAll(lines[k], BeginsInside(lines, k), entries, names)
  {
    CollectedSame(lines, parts, [entries], k, names);
  }

  lemma {:induction false} AttachedHaveNoExtent(doc: string, line: nat, matches: seq<Match>, spans: seq<Span>)
    ensures forall e :: e in AttachedAll(doc, line, matches, spans) ==> e.extent.None?
  {
    if spans != [] {
      AttachedHaveNoExtent(doc, line, matches, spans[..|spans| - 1]);
    }
  }

  lemma EntriesFit(doc: string, line: nat, text: string, matches: seq<Match>, inside: bool, entries: seq<Entry>)
    requires MatchesFit(text, matches) && LineYields(doc, line, text, matches, inside, entries)
    ensures ExtentsFit(text, entries)
  {
    var own, attached := Map(FromMatch(doc, line), matches), AttachedAll(doc, line, matches, CodeSpans(text, inside));
    AttachedHaveNoExtent(doc, line, matches, CodeSpans(text, inside));
    forall e | e in entries && e.extent.Some? ensures e.extent.value.0 <= e.extent.value.1 <= |text| {
      assert e in multiset(entries);
      assert e in own || e in attached;
      var i :| 0 <= i < |own| && own[i] == e;
      assert matches[i] in matches;
    }
  }

  // ---- What a document run guarantees ---------------------------------------------------

  /** The state a text line is read under is the parity of its whole paragraph, character by character. */
  lemma StateIsParagraphParity(lines: seq<string>, k: nat, i: nat)
    requires k < |lines| && FenceBefore(lines, k).None? && !IsBlank(lines[k]) && i <= |lines[k]|
    ensures var text := Joined(lines, ParagraphStart(lines, k), k);
      Inside(lines[k], BeginsInside(lines, k), i) == Inside(text + lines[k], false, |text| + i)
  {
    hide Ticks;
    hide Joined;
    hide FenceBefore;
    hide IsBlank;
    hide ParagraphStart;
    var text := Joined(lines, ParagraphStart(lines, k), k);
    var all := text + lines[k];
    assert all[..|text|] == text && all[|text|..] == lines[k];
    TicksOfPrefix(all, |text|, |text|);
    InsideBehind(all, false, |text|, i);
  }

  /** Characters `a..b` of line `k` are a closed run of its paragraph. */
  ghost predicate ParagraphRun(lines: seq<string>, k: nat, a: int, b: int)
    requires k < |lines|
  {
    var text := Joined(lines, ParagraphStart(lines, k), k);
    && 0 <= a < b < |lines[k]| && b == Find(lines[k], TICK, a)
    && Inside(text + lines[k], false, |text| + a)
    && (a > 0 ==> lines[k][a - 1] == TICK)
  }

  lemma RunIsParagraphRun(lines: seq<string>, k: nat, a: int, b: int)
    requires k < |lines| && FenceBefore(lines, k).None? && !IsBlank(lines[k])
    ensures ClosedRun(lines[k], BeginsInside(lines, k), a, b) <==> ParagraphRun(lines, k, a, b)
  {
    hide BeginsInside;
    hide FenceBefore;
    hide IsBlank;
    hide Joined;
    hide ParagraphStart;
    hide Find;
    hide Inside;
    if 0 <= a <= |lines[k]| {
      StateIsParagraphParity(lines, k, a);
    }
  }

  /**
    Pairing line by line with one carried bit agrees with pairing the whole paragraph: the
    spans read on a line are exactly the closed runs the paragraph's backticks make on it.
   */
  lemma LineSpansAreParagraphRuns(lines: seq<string>, k: nat, sp: Span)
    requires k < |lines| && FenceBefore(lines, k).None? && !IsBlank(lines[k])
    requires !Misleads(lines[k], BeginsInside(lines, k), 0)
    ensures sp in CodeSpans(lines[k], BeginsInside(lines, k)) <==>
      && ParagraphRun(lines, k, RunStart(sp), sp.end - 1)
      && sp.content == lines[k][RunStart(sp)..sp.end - 1]
      && sp.start == if RunStart(sp) == 0 then 0 else RunStart(sp) - 1
  {
    hide CodeSpans;
    hide Misleads;
    hide BeginsInside;
    hide FenceBefore;
    hide IsBlank;
    hide ClosedRun;
    hide ParagraphRun;
    SpansAreClosedRuns(lines[k], BeginsInside(lines, k));
    assert sp in CodeSpans(lines[k], BeginsInside(lines, k)) <==> IsSpan(lines[k], BeginsInside(lines, k), sp);
    RunIsParagraphRun(lines, k, RunStart(sp), sp.end - 1);
  }

  ghost predicate MatchesInOrder(matches: seq<Match>) {
    forall i, j :: 0 <= i < j < |matches| ==> matches[i].start <= matches[j].start
  }

  /** The path anchor a continuation written at `at` continues. */
  ghost predicate NearestPreceding(matches: seq<Match>, at: nat, m: Match) {
    && m in matches && m.start < at
    && forall m' :: m' in matches && m'.start < at ==> m'.start <= m.start
  }

  lemma {:induction false} LastBeforeIsNearest(matches: seq<Match>, at: nat)
    requires MatchesInOrder(matches)
    ensures var before := Filter(matches, StartsBefore(at));
      before != [] ==> NearestPreceding(matches, at, before[|before| - 1])
  {
    if matches != [] {
      LastBeforeIsNearest(matches[1..], at);
      FilterIn(matches[1..], StartsBefore(at));
      var rest := Filter(matches[1..], StartsBefore(at));
      assert rest == [] ==> forall m :: m in matches[1..] ==> m !in rest;
      assert matches == [matches[0]] + matches[1..];
    }
  }

  /** A continuation takes the path of the nearest path anchor strictly before it, or is silent if there is none. */
  lemma ContinuationTakesNearestPath(doc: string, line: nat, matches: seq<Match>, sp: Span)
    requires MatchesInOrder(matches) && ContinuationOf(sp.content).Some?
    ensures var e := Attached(doc, line, matches, sp);
      && (e.None? <==> forall m :: m in matches ==> m.start >= sp.start)
      && (e.Some? ==>
           && e.value.at == sp.start && e.value.anchor.continuation
           && e.value.anchor.start == ContinuationOf(sp.content).value.first
           && e.value.anchor.end == ContinuationOf(sp.content).value.last
           && exists m :: NearestPreceding(matches, sp.start, m) && e.value.anchor.path == m.path)
  {
    FilterIn(matches, StartsBefore(sp.start));
    LastBeforeIsNearest(matches, sp.start);
    var before := Filter(matches, StartsBefore(sp.start));
    assert before != [] ==> before[|before| - 1] in before;
    assert before == [] ==> forall m :: m in matches ==> m !in before;
  }

  /** Every continuation span of a line is attached or counted as silent, never both. */
  lemma {:induction false} ContinuationsAttachedOrCounted(doc: string, line: nat, matches: seq<Match>, spans: seq<Span>)
    ensures forall e :: e in AttachedAll(doc, line, matches, spans) <==> exists sp :: sp in spans && Attached(doc, line, matches, sp) == Some(e)
    ensures |AttachedAll(doc, line, matches, spans)| <= CountContinuations(spans)
  {
    if spans != [] {
      var init, last := spans[..|spans| - 1], spans[|spans| - 1];
      ContinuationsAttachedOrCounted(doc, line, matches, init);
      assert spans == init + [last];
    }
  }

  /** A continuation in front of which no path anchor begins. */
  ghost predicate StaysSilent(matches: seq<Match>, sp: Span) {
    (exists numbers :: IsContinuation(sp.content, numbers)) && forall m :: m in matches ==> sp.start <= m.start
  }

  ghost function SilentSpans(matches: seq<Match>, spans: seq<Span>): set<nat> {
    set k | 0 <= k < |spans| && StaysSilent(matches, spans[k])
  }

  lemma SilentIff(doc: string, line: nat, matches: seq<Match>, sp: Span)
    ensures StaysSilent(matches, sp) <==> ContinuationOf(sp.content).Some? && Attached(doc, line, matches, sp).None?
    ensures ContinuationOf(sp.content).None? ==> Attached(doc, line, matches, sp).None?
  {
    hide ContinuationOf;
    hide IsContinuation;
    forall numbers ensures ContinuationOf(sp.content) == Some(numbers) <==> IsContinuation(sp.content, numbers) {
      ContinuationIff(sp.content, numbers);
    }
    if ContinuationOf(sp.content).Some? {
      assert IsContinuation(sp.content, ContinuationOf(sp.content).value);
    }
    var before := Filter(matches, StartsBefore(sp.start));
    FilterIn(matches, StartsBefore(sp.start));
    if before != [] {
      assert before[0] in before && before[0] in matches;
    }
    assert forall m :: m in matches && m.start < sp.start ==> m in before;
  }

  lemma OneMoreSilent(matches: seq<Match>, spans: seq<Span>, k: nat)
    requires |spans| == k + 1
    ensures |SilentSpans(matches, spans)| == |SilentSpans(matches, spans[..k])| + if StaysSilent(matches, spans[k]) then 1 else 0
  {
    hide StaysSilent;
    assert SilentSpans(matches, spans) == SilentSpans(matches, spans[..k]) + if StaysSilent(matches, spans[k]) then {k} else {};
    assert k !in SilentSpans(matches, spans[..k]);
  }

  lemma NothingSilent(doc: string, line: nat, matches: seq<Match>)
    ensures CountContinuations([]) == |AttachedAll(doc, line, matches, [])| == |SilentSpans(matches, [])| == 0
  {
    assert SilentSpans(matches, []) == {};
  }

  /** What the counter of the silent counts: the spans that read as continuations and have no path anchor before them. */
  lemma {:induction false} SilentIsCount(doc: string, line: nat, matches: seq<Match>, spans: seq<Span>)
    ensures CountContinuations(spans) - |AttachedAll(doc, line, matches, spans)| == |SilentSpans(matches, spans)|
  {
    hide StaysSilent;
    hide Attached;
    hide ContinuationOf;
    hide SilentSpans;
    if spans == [] {
      NothingSilent(doc, line, matches);
    } else {
      var k := |spans| - 1;
      SilentIsCount(doc, line, matches, spans[..k]);
      SilentIff(doc, line, matches, spans[k]);
      OneMoreSilent(matches, spans, k);
    }
  }

  // ---- Which lines open and close a fenced block ------------------------------------------------------

  /** Three or more backticks, or three or more tildes. */
  ghost predicate AreMarks(m: string) {
    |m| >= 3 && (m[0] == '`' || m[0] == '~') && forall i :: 0 <= i < |m| ==> m[i] == m[0]
  }

  /** `line` is at most three white space characters, the marks `m`, and a rest that does not go on with them. */
  ghost predicate OpensWith(line: string, m: string, end: nat) {
    && AreMarks(m) && |m| <= end <= |line| && end - |m| <= 3
    && AllSpace(line[..end - |m|]) && line[end - |m|..end] == m
    && (end < |line| ==> line[end] != m[0])
  }

  lemma {:induction false} LeadingSpacesIs(line: string, w: nat)
    requires w <= |line| && AllSpace(line[..w]) && (w < |line| ==> !IsSpace(line[w]))
    ensures LeadingSpaces(line) == w
  {
    hide IsSpace;
    if w > 0 {
      assert line[..w][0] == line[0];
      var rest := line[1..][..w - 1];
      assert rest == line[..w][1..];
      assert AllSpace(rest);
      LeadingSpacesIs(line[1..], w - 1);
    }
  }

  lemma {:induction false} LeadingSpacesAre(line: string)
    ensures AllSpace(line[..LeadingSpaces(line)])
    ensures LeadingSpaces(line) < |line| ==> !IsSpace(line[LeadingSpaces(line)])
  {
    hide IsSpace;
    if line != "" && IsSpace(line[0]) {
      LeadingSpacesAre(line[1..]);
      var w := LeadingSpaces(line);
      assert line[..w] == [line[0]] + line[1..][..w - 1];
    }
  }

  lemma {:induction false} RunEndIs(line: string, c: char, i: nat, k: nat)
    requires i <= k <= |line| && (forall j :: i <= j < k ==> line[j] == c) && (k < |line| ==> line[k] != c)
    ensures RunEnd(line, c, i) == k
    decreases k - i
  {
    if i < k {
      RunEndIs(line, c, i + 1, k);
    }
  }

  lemma {:induction false} RunEndHolds(line: string, c: char, i: nat)
    requires i <= |line|
    ensures forall j :: i <= j < RunEnd(line, c, i) ==> line[j] == c
    ensures RunEnd(line, c, i) < |line| ==> line[RunEnd(line, c, i)] != c
    decreases |line| - i
  {
    if i < |line| && line[i] == c {
      RunEndHolds(line, c, i + 1);
    }
  }

  /** The lines that open a fence are exactly those of this form, and the marker is the whole run of marks. */
  lemma FenceOnIff(line: string, m: string, end: nat)
    ensures FenceOn(line) == Some(Fence(m, end)) <==> OpensWith(line, m, end)
  {
    if OpensWith(line, m, end) {
      OpensWithIsFound(line, m, end);
    }
    if FenceOn(line) == Some(Fence(m, end)) {
      var w := LeadingSpaces(line);
      LeadingSpacesAre(line);
      RunEndHolds(line, line[w], w);
      hide IsSpace;
      assert m == line[w..end] && m[0] == line[w];
    }
  }

  lemma OpensWithIsFound(line: string, m: string, end: nat)
    requires OpensWith(line, m, end)
    ensures FenceOn(line) == Some(Fence(m, end))
  {
    var w := end - |m|;
    assert forall j :: w <= j < end ==> line[j] == line[w..end][j - w];
    assert line[w] == m[0] && !IsSpace(line[w]);
    hide IsSpace;
    LeadingSpacesIs(line, w);
    RunEndIs(line, line[w], w, end);
  }

  /** The same marks, no fewer, and only white space behind. */
  ghost predicate EndsFence(line: string, marker: string)
    requires marker != ""
  {
    exists m, end: nat :: OpensWith(line, m, end) && m[0] == marker[0] && |m| >= |marker| && AllSpace(line[end..])
  }

  lemma ClosesFenceIff(line: string, marker: string)
    requires marker != ""
    ensures ClosesFence(line, marker) <==> EndsFence(line, marker)
  {
    hide OpensWith;
    hide FenceOn;
    hide Strip;
    forall m, end: nat ensures FenceOn(line) == Some(Fence(m, end)) <==> OpensWith(line, m, end) {
      FenceOnIff(line, m, end);
    }
    var f := FenceOn(line);
    if f.Some? {
      BlankIffAllSpace(line[f.value.end..]);
      assert OpensWith(line, f.value.marker, f.value.end);
    }
  }

  /** Line `k` stands in a fenced block or ends it: a line outside of any opened it with `m`, and none since has ended it. */
  ghost predicate InFence(lines: seq<string>, k: nat, m: string)
    decreases k, 0
  {
    exists j: nat, end: nat ::
      j < k <= |lines| && OutsideFences(lines, j) && OpensWith(lines[j], m, end) && forall i :: j < i < k ==> !EndsFence(lines[i], m)
  }

  ghost predicate OutsideFences(lines: seq<string>, k: nat)
    decreases k, 1
  {
    forall m: string :: !InFence(lines, k, m)
  }

  lemma InFenceStep(lines: seq<string>, k: nat, m: string)
    requires k < |lines| && m != ""
    ensures InFence(lines, k + 1, m) <==>
      (InFence(lines, k, m) && !EndsFence(lines[k], m)) || (OutsideFences(lines, k) && exists end: nat :: OpensWith(lines[k], m, end))
  {
    hide OutsideFences;
    hide OpensWith;
    hide EndsFence;
    if InFence(lines, k, m) && !EndsFence(lines[k], m) {
      var j: nat, end: nat :|
        j < k && OutsideFences(lines, j) && OpensWith(lines[j], m, end) && forall i :: j < i < k ==> !EndsFence(lines[i], m);
      assert j < k + 1 && forall i :: j < i < k + 1 ==> !EndsFence(lines[i], m);
    }
    if InFence(lines, k + 1, m) {
      var j: nat, end: nat :|
        j < k + 1 && OutsideFences(lines, j) && OpensWith(lines[j], m, end) && forall i :: j < i < k + 1 ==> !EndsFence(lines[i], m);
    }
  }

  lemma NoFenceWithoutMarks(lines: seq<string>, k: nat)
    ensures !InFence(lines, k, "")
  {
  }

  lemma OpensIff(line: string, m: string)
    ensures (FenceOn(line).Some? && FenceOn(line).value.marker == m) <==> exists end: nat :: OpensWith(line, m, end)
  {
    hide OpensWith;
    hide FenceOn;
    if FenceOn(line).Some? && FenceOn(line).value.marker == m {
      FenceOnIff(line, m, FenceOn(line).value.end);
    }
    if end: nat :| OpensWith(line, m, end) {
      FenceOnIff(line, m, end);
    }
  }

  lemma FenceBeforeStep(lines: seq<string>, k: nat, m: string)
    requires k < |lines|
    requires forall n :: FenceBefore(lines, k) == Some(n) <==> InFence(lines, k, n)
    requires FenceBefore(lines, k).None? <==> OutsideFences(lines, k)
    ensures FenceBefore(lines, k + 1) == Some(m) <==> InFence(lines, k + 1, m)
  {
    NoFenceWithoutMarks(lines, k + 1);
    OpensIff(lines[k], m);
    var before := FenceBefore(lines, k);
    assert FenceBefore(lines, k + 1) ==
      if before.Some? then (if ClosesFence(lines[k], before.value) then None else before)
      else if FenceOn(lines[k]).Some? then Some(FenceOn(lines[k]).value.marker)
      else None;
    hide *;
    if m != "" {
      InFenceStep(lines, k, m);
      ClosesFenceIff(lines[k], m);
    }
  }

  /** The state of the fence is what the lines say. */
  lemma {:induction false} FenceBeforeIff(lines: seq<string>, k: nat)
    requires k <= |lines|
    ensures forall m :: FenceBefore(lines, k) == Some(m) <==> InFence(lines, k, m)
    ensures FenceBefore(lines, k).None? <==> OutsideFences(lines, k)
    decreases k
  {
    if k > 0 {
      FenceBeforeIff(lines, k - 1);
      forall m ensures FenceBefore(lines, k) == Some(m) <==> InFence(lines, k, m) {
        FenceBeforeStep(lines, k - 1, m);
      }
    }
    hide InFence;
    if FenceBefore(lines, k).Some? {
      assert InFence(lines, k, FenceBefore(lines, k).value);
    }
  }

  // ---- What a line's anchors and continuations are ----------------------------------------------------------

  lemma PathAnchorIs(doc: string, line: nat, m: Match)
    ensures var e := FromMatch(doc, line)(m);
      && e.at == m.start && e.extent == Some((m.start, m.end))
      && e.anchor.doc == doc && e.anchor.line == line && e.anchor.path == m.path
      && e.anchor.start == m.first && e.anchor.end == m.last && !e.anchor.continuation
      && e.anchor.target.None? && e.anchor.symbol.None? && e.anchor.status == Ok
  {
  }

  /** Only path anchors are given a symbol, the one next to them; nothing else of an anchor changes. */
  lemma NamedIs(text: string, inside: bool, e: Entry, names: string -> bool)
    requires e.extent.Some? ==> e.extent.value.0 <= e.extent.value.1 <= |text|
    ensures var a := Named(text, inside, e, names);
      a == e.anchor.(symbol := if e.extent.Some? then SymbolOf(text, e.extent.value.0, e.extent.value.1, inside, names) else e.anchor.symbol)
  {
  }

  ghost predicate WrittenAs(s: string, a: string, last: Option<string>) {
    && a != "" && AllDigits(a)
    && match last case None => s == ":" + a case Some(b) => b != "" && AllDigits(b) && s == ":" + a + "-" + b
  }

  /** A continuation is `:NNN` or `:NNN-MMM` with white space around it. */
  ghost predicate IsContinuation(content: string, numbers: Numbers) {
    exists before, s, behind, a, last: Option<string> ::
      && content == before + s + behind && AllSpace(before) && AllSpace(behind) && WrittenAs(s, a, last)
      && numbers == Numbers(ValueOf(a), if last.Some? then Some(ValueOf(last.value)) else None)
  }

  lemma ContinuationIff(content: string, numbers: Numbers)
    ensures ContinuationOf(content) == Some(numbers) <==> IsContinuation(content, numbers)
  {
    if ContinuationOf(content) == Some(numbers) {
      var before, behind := StripParts(content);
      var a, last := ContinuationHasForm(content);
      hide ContinuationOf;
      hide Strip;
      hide ValueOf;
      assert WrittenAs(Strip(content), a, last);
    }
    if IsContinuation(content, numbers) {
      var before, s, behind, a, last: Option<string> :|
        && content == before + s + behind && AllSpace(before) && AllSpace(behind) && WrittenAs(s, a, last)
        && numbers == Numbers(ValueOf(a), if last.Some? then Some(ValueOf(last.value)) else None);
      ContinuationIsRead(before, s, behind, a, last);
    }
  }

  lemma ContinuationIsRead(before: string, s: string, behind: string, a: string, last: Option<string>)
    requires AllSpace(before) && AllSpace(behind) && WrittenAs(s, a, last)
    ensures ContinuationOf(before + s + behind) == Some(Numbers(ValueOf(a), if last.Some? then Some(ValueOf(last.value)) else None))
  {
    hide ValueOf;
    hide DigitsEnd;
    hide IsSpace;
    hide Strip;
    match last {
      case None =>
        OneNumberStands(a);
        StripOf(before, s, behind);
        assert DigitsEnd(s, 1) == |s| && s[1..|s|] == a;
      case Some(b) =>
        TwoNumbersStand(a, b);
        StripOf(before, s, behind);
    }
  }

  lemma DigitsAreNoSpace(s: string, i: nat)
    requires i < |s| && IsDigit(s[i])
    ensures !IsSpace(s[i]) && s[i] != '-' && s[i] != ':' && !IsSpace(':') && !IsDigit('-')
  {
  }

  lemma OneNumberStands(a: string)
    requires a != "" && AllDigits(a)
    ensures var s := ":" + a;
      |s| == 1 + |a| && s[0] == ':' && s[1..|s|] == a && DigitsEnd(s, 1) == |s| && !IsSpace(s[0]) && !IsSpace(s[|s| - 1])
  {
    var s := ":" + a;
    assert forall j :: 1 <= j < |s| ==> s[j] == a[j - 1];
    DigitsAreNoSpace(s, |s| - 1);
    hide DigitsEnd;
    DigitsEndOf(s, 1, |s|);
  }

  lemma TwoNumbersStand(a: string, b: string)
    requires a != "" && b != "" && AllDigits(a) && AllDigits(b)
    ensures var s, k := ":" + a + "-" + b, 1 + |a|;
      && |s| == k + 1 + |b| && s[0] == ':' && s[1..k] == a && s[k] == '-' && s[k + 1..|s|] == b
      && DigitsEnd(s, 1) == k && DigitsEnd(s, k + 1) == |s|
      && !IsSpace(s[0]) && !IsSpace(s[|s| - 1])
  {
    var s, k := ":" + a + "-" + b, 1 + |a|;
    assert forall j :: 1 <= j < k ==> s[j] == a[j - 1];
    assert forall j :: k + 1 <= j < |s| ==> s[j] == b[j - k - 1];
    DigitsAreNoSpace(s, |s| - 1);
    hide DigitsEnd;
    DigitsEndOf(s, 1, k);
    DigitsEndOf(s, k + 1, |s|);
  }

  lemma ContinuationHasForm(content: string) returns (a: string, last: Option<string>)
    requires ContinuationOf(content).Some?
    ensures WrittenAs(Strip(content), a, last)
    ensures ContinuationOf(content).value == Numbers(ValueOf(a), if last.Some? then Some(ValueOf(last.value)) else None)
  {
    hide Strip;
    var s := Strip(content);
    var k := DigitsEnd(s, 1);
    a, last := s[1..k], None;
    if k == |s| {
      assert s == ":" + a;
    } else {
      var n := DigitsEnd(s, k + 1);
      var b := s[k + 1..n];
      last := Some(b);
      assert s == ":" + a + "-" + b;
    }
  }
}
