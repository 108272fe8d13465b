/**
  The scan of `scripts/check_doc_hashes.py`: which commit hashes a document may cite, what a
  marker excuses, and what a clean report says. Each line comes as what its expressions match,
  and git as a function from a hash to what it names.
 */
module DocHashes {
  import opened Common

  /** What a line is to the scan: the four cannot overlap. */
  datatype Line = Blank | Fence(mark: char) | Mark(name: string) | Prose(hashes: seq<string>)

  datatype Document = Document(name: string, lines: seq<Line>)

  /** A hash names a commit of this history, a commit out of reach, nothing, or another object. */
  datatype Kind = Commit | Unreachable | Absent | Other(what: string)

  datatype Entry = Entry(hash: string, source: string)

  /** Lines are counted from 1. */
  datatype Citation = Citation(doc: string, line: nat, hash: string)

  /** A marker on `line`; it excuses the lines from `start` up to but not including `end`. */
  datatype Marker = Marker(doc: string, line: nat, start: nat, end: nat) {
    predicate Covers(c: Citation) {
      doc == c.doc && start <= c.line < end
    }
  }

  datatype State = IsCommit | NotCommit(what: string) | Ledgered | Marked(i: nat) | Unexcused

  datatype Failure = UnknownClass(doc: string, line: nat, name: string)
                   | NoBlock(doc: string, line: nat)
                   | Failed(citation: Citation, state: State)

  const HISTORY := "history"

  // ---- One document ------------------------------------------------------------------------------------

  function FenceAfter(fence: Option<char>, line: Line): Option<char> {
    if fence.Some? then if line == Fence(fence.value) then None else fence
    else if line.Fence? then Some(line.mark)
    else None
  }

  /** The fence that is open in front of line `k`, counted from 0. */
  function FenceAt(lines: seq<Line>, k: nat): Option<char>
    requires k <= |lines|
  {
    if k == 0 then None else FenceAfter(FenceAt(lines, k - 1), lines[k - 1])
  }

  /** Line `k` is text: no fence is open in front of it. */
  predicate IsOpen(lines: seq<Line>, k: nat)
    requires k < |lines|
  {
    FenceAt(lines, k).None?
  }

  function HashesAt(d: Document, k: nat, n: nat): (cs: seq<Citation>)
    requires k < |d.lines| && d.lines[k].Prose? && n <= |d.lines[k].hashes|
    ensures |cs| == n
  {
    if n == 0 then [] else HashesAt(d, k, n - 1) + [Citation(d.name, k + 1, d.lines[k].hashes[n - 1])]
  }

  /** The citations on the first `k` lines. */
  function Cites(d: Document, k: nat): seq<Citation>
    requires k <= |d.lines|
  {
    if k == 0 then []
    else
      var line := d.lines[k - 1];
      Cites(d, k - 1) + if IsOpen(d.lines, k - 1) && line.Prose? then HashesAt(d, k - 1, |line.hashes|) else []
  }

  /** The markers declared on the first `k` lines. */
  function Declared(lines: seq<Line>, k: nat): (ds: seq<nat>)
    requires k <= |lines|
    ensures forall p :: 0 <= p < |ds| ==> ds[p] < k && lines[ds[p]] == Mark(HISTORY) && IsOpen(lines, ds[p])
  {
    if k == 0 then []
    else Declared(lines, k - 1) + if IsOpen(lines, k - 1) && lines[k - 1] == Mark(HISTORY) then [k - 1] else []
  }

  function Unknown(d: Document, k: nat): seq<Failure>
    requires k <= |d.lines|
  {
    if k == 0 then []
    else
      var line := d.lines[k - 1];
      Unknown(d, k - 1) +
      if IsOpen(d.lines, k - 1) && line.Mark? && line.name != HISTORY then [UnknownClass(d.name, k, line.name)] else []
  }

  /** The first line from `i` on that is neither blank nor a marker. */
  function BlockStart(lines: seq<Line>, i: nat): (k: nat)
    requires i <= |lines|
    ensures i <= k <= |lines|
    ensures forall j :: i <= j < k ==> lines[j].Blank? || lines[j].Mark?
    ensures k < |lines| ==> !lines[k].Blank? && !lines[k].Mark?
    decreases |lines| - i
  {
    if i < |lines| && (lines[i].Blank? || lines[i].Mark?) then BlockStart(lines, i + 1) else i
  }

  function BlockEnd(lines: seq<Line>, i: nat): (k: nat)
    requires i <= |lines|
    ensures i <= k <= |lines|
    ensures forall j :: i <= j < k ==> !lines[j].Blank?
    ensures k < |lines| ==> lines[k].Blank?
    decreases |lines| - i
  {
    if i < |lines| && !lines[i].Blank? then BlockEnd(lines, i + 1) else i
  }

  function MarkerAt(d: Document, i: nat): Marker
    requires i < |d.lines|
  {
    var start := BlockStart(d.lines, i + 1);
    Marker(d.name, i + 1, start + 1, BlockEnd(d.lines, start) + 1)
  }

  predicate HasBlock(d: Document, i: nat)
    requires i < |d.lines|
  {
    BlockStart(d.lines, i + 1) < |d.lines|
  }

  ghost predicate AllWithin(ds: seq<nat>, n: nat) {
    forall p :: 0 <= p < |ds| ==> ds[p] < n
  }

  function Markers(d: Document, ds: seq<nat>): seq<Marker>
    requires AllWithin(ds, |d.lines|)
  {
    if ds == [] then []
    else
      var i := ds[|ds| - 1];
      Markers(d, ds[..|ds| - 1]) + if HasBlock(d, i) then [MarkerAt(d, i)] else []
  }

  function Blockless(d: Document, ds: seq<nat>): seq<Failure>
    requires AllWithin(ds, |d.lines|)
  {
    if ds == [] then []
    else
      var i := ds[|ds| - 1];
      Blockless(d, ds[..|ds| - 1]) + if HasBlock(d, i) then [] else [NoBlock(d.name, i + 1)]
  }

  // ---- All documents -----------------------------------------------------------------------------------------

  datatype Found = Found(cites: seq<Citation>, markers: seq<Marker>, failures: seq<Failure>)

  function FoundOf(d: Document): Found {
    var n := |d.lines|;
    Found(Cites(d, n), Markers(d, Declared(d.lines, n)), Unknown(d, n) + Blockless(d, Declared(d.lines, n)))
  }

  function Append(a: Found, b: Found): Found {
    Found(a.cites + b.cites, a.markers + b.markers, a.failures + b.failures)
  }

  function FoundIn(docs: seq<Document>): Found {
    if docs == [] then Found([], [], []) else Append(FoundIn(docs[..|docs| - 1]), FoundOf(docs[|docs| - 1]))
  }

  // ---- One citation ---------------------------------------------------------------------------------------------

  predicate Pinned(entries: seq<Entry>, hash: string) {
    exists i :: 0 <= i < |entries| && entries[i].hash == hash
  }

  /** The first marker that covers the citation. */
  function FirstCover(markers: seq<Marker>, c: Citation, from: nat): (i: Option<nat>)
    requires from <= |markers|
    ensures i.Some? ==> from <= i.value < |markers| && markers[i.value].Covers(c)
    ensures forall j :: from <= j < (if i.Some? then i.value else |markers|) ==> !markers[j].Covers(c)
    decreases |markers| - from
  {
    if from == |markers| then None else if markers[from].Covers(c) then Some(from) else FirstCover(markers, c, from + 1)
  }

  function Decision(markers: seq<Marker>, entries: seq<Entry>, answer: string -> Kind, c: Citation): (s: State)
    ensures s.Marked? ==> s.i < |markers|
  {
    match answer(c.hash)
    case Commit => IsCommit
    case Other(what) => NotCommit(what)
    case _ =>
      if Pinned(entries, c.hash) then Ledgered
      else
        match FirstCover(markers, c, 0)
        case Some(i) => Marked(i)
        case None => Unexcused
  }

  /** Every citation with its decision. */
  function Decided(markers: seq<Marker>, entries: seq<Entry>, answer: string -> Kind, cites: seq<Citation>): (ds: seq<(Citation, State)>)
    ensures |ds| == |cites|
    ensures forall k :: 0 <= k < |cites| ==> ds[k] == (cites[k], Decision(markers, entries, answer, cites[k]))
  {
    seq(|cites|, k requires 0 <= k < |cites| => (cites[k], Decision(markers, entries, answer, cites[k])))
  }

  function Failures(markers: seq<Marker>, entries: seq<Entry>, answer: string -> Kind, cites: seq<Citation>): seq<Failure> {
    if cites == [] then []
    else
      var c := cites[|cites| - 1];
      var s := Decision(markers, entries, answer, c);
      Failures(markers, entries, answer, cites[..|cites| - 1]) + if s.NotCommit? || s.Unexcused? then [Failed(c, s)] else []
  }

  function ResolvedIn(answer: string -> Kind, cites: seq<Citation>): (n: nat)
    ensures n <= |cites|
  {
    if cites == [] then 0
    else ResolvedIn(answer, cites[..|cites| - 1]) + if answer(cites[|cites| - 1].hash).Commit? then 1 else 0
  }

  /** A citation whose hash cannot be resolved at all. */
  predicate Missing(answer: string -> Kind, hash: string) {
    answer(hash).Unreachable? || answer(hash).Absent?
  }

  predicate Cited(cites: seq<Citation>, answer: string -> Kind, hash: string) {
    Missing(answer, hash) && exists k :: 0 <= k < |cites| && cites[k].hash == hash
  }

  predicate Credited(markers: seq<Marker>, entries: seq<Entry>, answer: string -> Kind, cites: seq<Citation>, i: nat) {
    exists k :: 0 <= k < |cites| && Decision(markers, entries, answer, cites[k]) == Marked(i)
  }

  function StaleEntries(cites: seq<Citation>, answer: string -> Kind, entries: seq<Entry>): seq<Entry> {
    if entries == [] then []
    else
      var e := entries[|entries| - 1];
      StaleEntries(cites, answer, entries[..|entries| - 1]) + if Cited(cites, answer, e.hash) then [] else [e]
  }

  function StaleMarkers(markers: seq<Marker>, entries: seq<Entry>, answer: string -> Kind, cites: seq<Citation>, n: nat): seq<Marker>
    requires n <= |markers|
  {
    if n == 0 then []
    else
      var before := StaleMarkers(markers, entries, answer, cites, n - 1);
      before + if Credited(markers, entries, answer, cites, n - 1) then [] else [markers[n - 1]]
  }

  // ---- The program ----------------------------------------------------------------------------------------------------

  method ScanDocument(d: Document) returns (found: Found)
    ensures found == FoundOf(d)
  {
    var fence: Option<char> := None;
    var cites: seq<Citation> := [];
    var declared: seq<nat> := [];
    var failures: seq<Failure> := [];
    for index := 0 to |d.lines|
      invariant fence == FenceAt(d.lines, index)
      invariant cites == Cites(d, index) && declared == Declared(d.lines, index) && failures == Unknown(d, index)
    {
      var line := d.lines[index];
      if fence.Some? {
        if line == Fence(fence.value) {
          fence := None;
        }
        continue;
      }
      if line.Fence? {
        fence := Some(line.mark);
        continue;
      }
      if line.Mark? {
        if line.name != HISTORY {
          failures := failures + [UnknownClass(d.name, index + 1, line.name)];
        } else {
          declared := declared + [index];
        }
        continue;
      }
      if line.Prose? {
        var here := CitesOnLine(d, index);
        cites := cites + here;
      }
    }
    var markers, blockless := Blocks(d, declared);
    found := Found(cites, markers, failures + blockless);
  }

  method CitesOnLine(d: Document, index: nat) returns (cites: seq<Citation>)
    requires index < |d.lines| && d.lines[index].Prose?
    ensures cites == HashesAt(d, index, |d.lines[index].hashes|)
  {
    cites := [];
    for n := 0 to |d.lines[index].hashes|
      invariant cites == HashesAt(d, index, n)
    {
      cites := cites + [Citation(d.name, index + 1, d.lines[index].hashes[n])];
    }
  }

  method Blocks(d: Document, declared: seq<nat>) returns (markers: seq<Marker>, failures: seq<Failure>)
    requires AllWithin(declared, |d.lines|)
    ensures markers == Markers(d, declared) && failures == Blockless(d, declared)
  {
    hide BlockStart;
    hide BlockEnd;
    markers, failures := [], [];
    for p := 0 to |declared|
      invariant markers == Markers(d, declared[..p]) && failures == Blockless(d, declared[..p])
    {
      assert declared[..p + 1][..p] == declared[..p];
      var start, end := Block(d.lines, declared[p]);
      if start >= |d.lines| {
        failures := failures + [NoBlock(d.name, declared[p] + 1)];
      } else {
        markers := markers + [Marker(d.name, declared[p] + 1, start + 1, end + 1)];
      }
    }
    assert declared[..|declared|] == declared;
  }

  method Block(lines: seq<Line>, i: nat) returns (start: nat, end: nat)
    requires i < |lines|
    ensures start == BlockStart(lines, i + 1) && end == BlockEnd(lines, start)
  {
    start := i + 1;
    while start < |lines| && (lines[start].Blank? || lines[start].Mark?)
      invariant i < start <= |lines| && BlockStart(lines, i + 1) == BlockStart(lines, start)
    {
      start := start + 1;
    }
    end := start;
    while end < |lines| && !lines[end].Blank?
      invariant start <= end <= |lines| && BlockEnd(lines, start) == BlockEnd(lines, end)
    {
      end := end + 1;
    }
  }

  class Report {
    var citations: seq<(Citation, State)>
    var failures: seq<Failure>
    var staleLedger: seq<Entry>
    var staleMarkers: seq<Marker>
    var seen: nat
    var resolved: nat
    var unresolved: nat

    constructor ()
      ensures citations == [] && failures == [] && staleLedger == [] && staleMarkers == []
      ensures seen == 0 && resolved == 0 && unresolved == 0
    {
      citations, failures, staleLedger, staleMarkers := [], [], [], [];
      seen, resolved, unresolved := 0, 0, 0;
    }

    predicate Clean()
      reads this
    {
      failures == [] && staleLedger == [] && staleMarkers == []
    }

    method Scan(docs: seq<Document>, entries: seq<Entry>, answer: string -> Kind)
      modifies this
      ensures var found := FoundIn(docs);
        && failures == old(failures) + found.failures + Failures(found.markers, entries, answer, found.cites)
        && staleLedger == old(staleLedger) + StaleEntries(found.cites, answer, entries)
        && staleMarkers == old(staleMarkers) + StaleMarkers(found.markers, entries, answer, found.cites, |found.markers|)
      ensures citations == old(citations) + Decided(FoundIn(docs).markers, entries, answer, FoundIn(docs).cites)
      ensures seen == old(seen) + |FoundIn(docs).cites|
      ensures resolved == old(resolved) + ResolvedIn(answer, FoundIn(docs).cites)
      ensures seen - old(seen) == (resolved - old(resolved)) + (unresolved - old(unresolved))
    {
      hide *;
      var found := FindAll(docs);
      failures := failures + found.failures;
      var covered, credits := Judge(found.cites, found.markers, entries, answer);
      Ratchet(found, entries, answer, covered, credits);
    }

    /** Every citation is counted and decided; ledger entries and markers are credited. */
    method Judge(cites: seq<Citation>, markers: seq<Marker>, entries: seq<Entry>, answer: string -> Kind)
      returns (covered: set<string>, credits: seq<nat>)
      modifies this`citations, this`failures, this`seen, this`resolved, this`unresolved
      ensures failures == old(failures) + Failures(markers, entries, answer, cites)
      ensures citations == old(citations) + Decided(markers, entries, answer, cites)
      ensures seen == old(seen) + |cites| && resolved == old(resolved) + ResolvedIn(answer, cites)
      ensures seen - old(seen) == (resolved - old(resolved)) + (unresolved - old(unresolved))
      ensures forall h :: h in covered <==> Pinned(entries, h) && Cited(cites, answer, h)
      ensures |credits| == |markers| && forall i :: 0 <= i < |credits| ==> (credits[i] > 0 <==> Credited(markers, entries, answer, cites, i))
    {
      hide Decision;
      hide Decided;
      hide Failures;
      hide ResolvedIn;
      hide Cited;
      hide Credited;
      hide FirstCover;
      ListsOfNone(markers, entries, answer);
      covered := {};
      credits := seq(|markers|, _ => 0);
      for k := 0 to |cites|
        invariant failures == old(failures) + Failures(markers, entries, answer, cites[..k])
        invariant citations == old(citations) + Decided(markers, entries, answer, cites[..k])
        invariant seen == old(seen) + k && resolved == old(resolved) + ResolvedIn(answer, cites[..k])
        invariant seen - old(seen) == (resolved - old(resolved)) + (unresolved - old(unresolved))
        invariant forall h :: h in covered <==> Pinned(entries, h) && Cited(cites[..k], answer, h)
        invariant |credits| == |markers|
        invariant forall i :: 0 <= i < |credits| ==> (credits[i] > 0 <==> Credited(markers, entries, answer, cites[..k], i))
      {
        var c := cites[k];
        ListsOneMore(markers, entries, answer, cites, k);
        CitedOneMore(cites, answer, k);
        CreditedOneMore(markers, entries, answer, cites, k);
        DecisionIs(markers, entries, answer, c);
        seen := seen + 1;
        citations := citations + [(c, Decision(markers, entries, answer, c))];
        var kind := answer(c.hash);
        if kind == Commit {
          resolved := resolved + 1;
          continue;
        }
        unresolved := unresolved + 1;
        if kind.Other? {
          failures := failures + [Failed(c, NotCommit(kind.what))];
          continue;
        }
        if Pinned(entries, c.hash) {
          covered := covered + {c.hash};
          continue;
        }
        var marker := FirstCover(markers, c, 0);
        if marker.Some? {
          credits := credits[marker.value := credits[marker.value] + 1];
          continue;
        }
        failures := failures + [Failed(c, Unexcused)];
      }
      assert cites[..|cites|] == cites;
    }

    /** Entries and markers without credit are stale. */
    method Ratchet(found: Found, entries: seq<Entry>, answer: string -> Kind, covered: set<string>, credits: seq<nat>)
      requires forall h :: h in covered <==> Pinned(entries, h) && Cited(found.cites, answer, h)
      requires |credits| == |found.markers|
      requires forall i :: 0 <= i < |credits| ==> (credits[i] > 0 <==> Credited(found.markers, entries, answer, found.cites, i))
      modifies this`staleLedger, this`staleMarkers
      ensures staleLedger == old(staleLedger) + StaleEntries(found.cites, answer, entries)
      ensures staleMarkers == old(staleMarkers) + StaleMarkers(found.markers, entries, answer, found.cites, |found.markers|)
    {
      hide Credited;
      hide Cited;
      for k := 0 to |entries|
        invariant staleLedger == old(staleLedger) + StaleEntries(found.cites, answer, entries[..k])
        invariant staleMarkers == old(staleMarkers)
      {
        assert entries[..k + 1][..k] == entries[..k];
        assert Pinned(entries, entries[k].hash);
        if entries[k].hash !in covered {
          staleLedger := staleLedger + [entries[k]];
        }
      }
      assert entries[..|entries|] == entries;
      for i := 0 to |found.markers|
        invariant staleMarkers == old(staleMarkers) + StaleMarkers(found.markers, entries, answer, found.cites, i)
        invariant staleLedger == old(staleLedger) + StaleEntries(found.cites, answer, entries)
      {
        if credits[i] == 0 {
          staleMarkers := staleMarkers + [found.markers[i]];
        }
      }
    }
  }

  method FindAll(docs: seq<Document>) returns (found: Found)
    ensures found == FoundIn(docs)
  {
    found := Found([], [], []);
    for k := 0 to |docs|
      invariant found == FoundIn(docs[..k])
    {
      assert docs[..k + 1][..k] == docs[..k];
      var more := ScanDocument(docs[k]);
      found := Append(found, more);
    }
    assert docs[..|docs|] == docs;
  }

  lemma ListsOfNone(markers: seq<Marker>, entries: seq<Entry>, answer: string -> Kind)
    ensures Decided(markers, entries, answer, []) == [] && Failures(markers, entries, answer, []) == [] && ResolvedIn(answer, []) == 0
    ensures forall h :: !Cited([], answer, h)
    ensures forall i :: !Credited(markers, entries, answer, [], i)
  {
  }

  lemma ListsOneMore(markers: seq<Marker>, entries: seq<Entry>, answer: string -> Kind, cites: seq<Citation>, k: nat)
    requires k < |cites|
    ensures var c, some, more := cites[k], cites[..k], cites[..k + 1];
      var s := Decision(markers, entries, answer, c);
      && Decided(markers, entries, answer, more) == Decided(markers, entries, answer, some) + [(c, s)]
      && Failures(markers, entries, answer, more)
         == Failures(markers, entries, answer, some) + (if s.NotCommit? || s.Unexcused? then [Failed(c, s)] else [])
      && ResolvedIn(answer, more) == ResolvedIn(answer, some) + if answer(c.hash).Commit? then 1 else 0
  {
    hide Decision;
    assert cites[..k + 1][..k] == cites[..k];
  }

  lemma CitedOneMore(cites: seq<Citation>, answer: string -> Kind, k: nat)
    requires k < |cites|
    ensures forall h :: Cited(cites[..k + 1], answer, h) <==>
              Cited(cites[..k], answer, h) || (h == cites[k].hash && Missing(answer, h))
  {
    assert cites[..k + 1] == cites[..k] + [cites[k]];
    forall h | Cited(cites[..k], answer, h) ensures Cited(cites[..k + 1], answer, h) {
      var j :| 0 <= j < k && cites[..k][j].hash == h;
      assert cites[..k + 1][j].hash == h;
    }
    assert cites[..k + 1][k] == cites[k];
  }

  lemma CreditedOneMore(markers: seq<Marker>, entries: seq<Entry>, answer: string -> Kind, cites: seq<Citation>, k: nat)
    requires k < |cites|
    ensures forall i :: Credited(markers, entries, answer, cites[..k + 1], i) <==>
              Credited(markers, entries, answer, cites[..k], i) || Decision(markers, entries, answer, cites[k]) == Marked(i)
  {
    hide Decision;
    assert cites[..k + 1] == cites[..k] + [cites[k]];
    forall i | Credited(markers, entries, answer, cites[..k], i) ensures Credited(markers, entries, answer, cites[..k + 1], i) {
      var j :| 0 <= j < k && Decision(markers, entries, answer, cites[..k][j]) == Marked(i);
      assert Decision(markers, entries, answer, cites[..k + 1][j]) == Marked(i);
    }
    assert cites[..k + 1][k] == cites[k];
  }

  lemma DecisionIs(markers: seq<Marker>, entries: seq<Entry>, answer: string -> Kind, c: Citation)
    ensures var s := Decision(markers, entries, answer, c);
      match answer(c.hash)
      case Commit => s == IsCommit
      case Other(what) => s == NotCommit(what)
      case _ =>
        if Pinned(entries, c.hash) then s == Ledgered
        else if FirstCover(markers, c, 0).Some? then s == Marked(FirstCover(markers, c, 0).value)
        else s == Unexcused
  {
  }

  // ---- What the counts count -----------------------------------------------------------------------------------------------

  ghost function Resolving(answer: string -> Kind, cites: seq<Citation>): set<nat> {
    set k | 0 <= k < |cites| && answer(cites[k].hash) == Commit
  }

  /** `resolved` is the number of citations whose hash names a commit. */
  lemma {:induction false} ResolvedIsCount(answer: string -> Kind, cites: seq<Citation>)
    ensures ResolvedIn(answer, cites) == |Resolving(answer, cites)|
  {
    if cites == [] {
      assert Resolving(answer, cites) == {};
    } else {
      var k := |cites| - 1;
      ResolvedIsCount(answer, cites[..k]);
      assert Resolving(answer, cites) == Resolving(answer, cites[..k]) + if answer(cites[k].hash) == Commit then {k} else {};
      assert k !in Resolving(answer, cites[..k]);
    }
  }
}
