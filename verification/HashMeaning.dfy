/** What a clean report of the hash scan says about the documents, without the scan. */
module HashMeaning {
  import opened Common
  import opened DocHashes

  // ---- Citations and markers, as the documents hold them ------------------------------------------------

  ghost predicate CitesAt(d: Document, i: nat, c: Citation) {
    && i < |d.lines| && IsOpen(d.lines, i) && d.lines[i].Prose?
    && c.doc == d.name && c.line == i + 1 && c.hash in d.lines[i].hashes
  }

  ghost predicate IsCitation(docs: seq<Document>, c: Citation) {
    exists d, i: nat :: d in docs && CitesAt(d, i, c)
  }

  ghost predicate Declares(d: Document, i: nat) {
    i < |d.lines| && IsOpen(d.lines, i) && d.lines[i].Mark?
  }

  ghost predicate MarksAt(d: Document, i: nat, m: Marker) {
    Declares(d, i) && d.lines[i].name == HISTORY && HasBlock(d, i) && m == MarkerAt(d, i)
  }

  ghost predicate IsMarker(docs: seq<Document>, m: Marker) {
    exists d, i: nat :: d in docs && MarksAt(d, i, m)
  }

  ghost predicate DistinctNames(docs: seq<Document>) {
    forall p, q :: 0 <= p < q < |docs| ==> docs[p].name != docs[q].name
  }

  // ---- The lists hold exactly these --------------------------------------------------------------------------

  lemma {:induction false} HashesAtHolds(d: Document, k: nat, n: nat, c: Citation)
    requires k < |d.lines| && d.lines[k].Prose? && n <= |d.lines[k].hashes|
    ensures c in HashesAt(d, k, n) <==> c.doc == d.name && c.line == k + 1 && c.hash in d.lines[k].hashes[..n]
  {
    if n > 0 {
      HashesAtHolds(d, k, n - 1, c);
      assert d.lines[k].hashes[..n] == d.lines[k].hashes[..n - 1] + [d.lines[k].hashes[n - 1]];
      assert c == Citation(d.name, k + 1, c.hash) <==> c.doc == d.name && c.line == k + 1;
    }
  }

  lemma {:induction false} CitesHolds(d: Document, k: nat, c: Citation)
    requires k <= |d.lines|
    ensures c in Cites(d, k) <==> exists i: nat :: i < k && CitesAt(d, i, c)
  {
    hide FenceAt;
    hide HashesAt;
    hide IsOpen;
    if k > 0 {
      CitesHolds(d, k - 1, c);
      if d.lines[k - 1].Prose? {
        var hashes := d.lines[k - 1].hashes;
        HashesAtHolds(d, k - 1, |hashes|, c);
        assert hashes[..|hashes|] == hashes;
      }
      assert c in Cites(d, k) <==> c in Cites(d, k - 1) || CitesAt(d, k - 1, c);
    }
  }

  lemma {:induction false} DeclaredHolds(lines: seq<Line>, k: nat, i: nat)
    requires k <= |lines|
    ensures i in Declared(lines, k) <==> i < k && lines[i] == Mark(HISTORY) && IsOpen(lines, i)
  {
    hide FenceAt;
    if k > 0 {
      DeclaredHolds(lines, k - 1, i);
    }
  }

  lemma {:induction false} DeclaredRises(lines: seq<Line>, k: nat, p: nat, q: nat)
    requires k <= |lines| && p < q < |Declared(lines, k)|
    ensures Declared(lines, k)[p] < Declared(lines, k)[q]
  {
    hide FenceAt;
    if q < |Declared(lines, k - 1)| {
      DeclaredRises(lines, k - 1, p, q);
    }
  }

  lemma {:induction false} MarkersHolds(d: Document, ds: seq<nat>, m: Marker)
    requires AllWithin(ds, |d.lines|)
    ensures m in Markers(d, ds) <==> exists i: nat :: i in ds && HasBlock(d, i) && m == MarkerAt(d, i)
  {
    hide BlockStart;
    hide BlockEnd;
    if ds != [] {
      var init, last := ds[..|ds| - 1], ds[|ds| - 1];
      assert ds == init + [last];
      MarkersHolds(d, init, m);
      assert m in Markers(d, ds) <==> m in Markers(d, init) || (HasBlock(d, last) && m == MarkerAt(d, last));
    }
  }

  ghost predicate Rising(ds: seq<nat>) {
    forall p, q :: 0 <= p < q < |ds| ==> ds[p] < ds[q]
  }

  /** The markers of a document stand in the order of their lines, and under its name. */
  lemma {:induction false} MarkersRise(d: Document, ds: seq<nat>)
    requires AllWithin(ds, |d.lines|) && Rising(ds)
    ensures forall p :: 0 <= p < |Markers(d, ds)| ==> Markers(d, ds)[p].doc == d.name && Markers(d, ds)[p].line - 1 in ds
    ensures forall p, q :: 0 <= p < q < |Markers(d, ds)| ==> Markers(d, ds)[p].line < Markers(d, ds)[q].line
  {
    hide BlockStart;
    hide BlockEnd;
    if ds != [] {
      var init, last := ds[..|ds| - 1], ds[|ds| - 1];
      MarkersRise(d, init);
      var ms := Markers(d, init);
      forall p | 0 <= p < |ms| ensures ms[p].line < last + 1 {
        var k :| 0 <= k < |init| && init[k] == ms[p].line - 1;
        assert ds[k] < ds[|ds| - 1];
      }
    }
  }

  lemma DocumentHolds(d: Document)
    ensures forall c :: c in FoundOf(d).cites <==> exists i: nat :: CitesAt(d, i, c)
    ensures forall m :: m in FoundOf(d).markers <==> exists i: nat :: MarksAt(d, i, m)
  {
    hide FenceAt;
    hide HasBlock;
    hide MarkerAt;
    var n := |d.lines|;
    forall c ensures c in FoundOf(d).cites <==> exists i: nat :: CitesAt(d, i, c) {
      CitesHolds(d, n, c);
    }
    forall m ensures m in FoundOf(d).markers <==> exists i: nat :: MarksAt(d, i, m) {
      MarkersHolds(d, Declared(d.lines, n), m);
      forall i: nat | i < n ensures (i in Declared(d.lines, n) && HasBlock(d, i) && m == MarkerAt(d, i)) <==> MarksAt(d, i, m) {
        DeclaredHolds(d.lines, n, i);
      }
    }
  }

  lemma {:induction false} FoundHolds(docs: seq<Document>)
    ensures forall c :: c in FoundIn(docs).cites <==> IsCitation(docs, c)
    ensures forall m :: m in FoundIn(docs).markers <==> IsMarker(docs, m)
  {
    hide FoundOf;
    hide CitesAt;
    hide MarksAt;
    if docs != [] {
      var init, last := docs[..|docs| - 1], docs[|docs| - 1];
      assert docs == init + [last];
      FoundHolds(init);
      DocumentHolds(last);
      forall c ensures IsCitation(docs, c) <==> IsCitation(init, c) || exists i: nat :: CitesAt(last, i, c) {
      }
      forall m ensures IsMarker(docs, m) <==> IsMarker(init, m) || exists i: nat :: MarksAt(last, i, m) {
      }
    }
  }

  /** Of two markers in one document the earlier comes first in the list. */
  ghost predicate ByLine(ms: seq<Marker>) {
    forall p, q :: 0 <= p < q < |ms| && ms[p].doc == ms[q].doc ==> ms[p].line < ms[q].line
  }

  lemma {:induction false} FoundByLine(docs: seq<Document>)
    requires DistinctNames(docs)
    ensures ByLine(FoundIn(docs).markers)
    ensures forall m :: m in FoundIn(docs).markers ==> exists k :: 0 <= k < |docs| && docs[k].name == m.doc
  {
    hide Markers;
    hide Declared;
    if docs != [] {
      var init, last := docs[..|docs| - 1], docs[|docs| - 1];
      FoundByLine(init);
      var ds := Declared(last.lines, |last.lines|);
      forall p, q | 0 <= p < q < |ds| ensures ds[p] < ds[q] {
        DeclaredRises(last.lines, |last.lines|, p, q);
      }
      MarkersRise(last, ds);
      var before, here := FoundIn(init).markers, Markers(last, ds);
      assert FoundIn(docs).markers == before + here;
      forall p, q | 0 <= p < |before| && 0 <= q < |here| ensures before[p].doc != here[q].doc {
        assert before[p] in before;
      }
      forall m | m in before + here ensures exists k :: 0 <= k < |docs| && docs[k].name == m.doc {
        if m in before {
          var k :| 0 <= k < |init| && init[k].name == m.doc;
          assert docs[k].name == m.doc;
        } else {
          assert docs[|docs| - 1].name == m.doc;
        }
      }
    }
  }

  // ---- Blocks ---------------------------------------------------------------------------------------------------

  lemma BlockStartFrom(lines: seq<Line>, i: nat, j: nat)
    requires i <= |lines| && i <= j <= BlockStart(lines, i)
    ensures BlockStart(lines, j) == BlockStart(lines, i)
    decreases j - i
  {
    if i < j {
      BlockStartFrom(lines, i + 1, j);
    }
  }

  lemma BlockEndFrom(lines: seq<Line>, i: nat, j: nat)
    requires i <= |lines| && i <= j <= BlockEnd(lines, i)
    ensures BlockEnd(lines, j) == BlockEnd(lines, i)
    decreases j - i
  {
    if i < j {
      BlockEndFrom(lines, i + 1, j);
    }
  }

  /** Blocks that overlap share their end, and the earlier marker's holds the later one's. */
  lemma OverlapSharesEnd(d: Document, i: nat, j: nat)
    requires i < j < |d.lines|
    ensures var m, n := MarkerAt(d, i), MarkerAt(d, j);
      m.start <= n.start && (n.start < m.end ==> m.end == n.end)
  {
    var start, later := BlockStart(d.lines, i + 1), BlockStart(d.lines, j + 1);
    if j + 1 <= start {
      BlockStartFrom(d.lines, i + 1, j + 1);
    }
    if later <= BlockEnd(d.lines, start) {
      BlockEndFrom(d.lines, start, later);
    }
  }

  lemma MarkersOverlap(docs: seq<Document>, m: Marker, n: Marker)
    requires DistinctNames(docs) && IsMarker(docs, m) && IsMarker(docs, n) && m.doc == n.doc && m.line < n.line
    ensures m.start <= n.start && (n.start < m.end ==> m.end == n.end)
  {
    hide FenceAt;
    var d, i :| d in docs && MarksAt(d, i, m);
    var e, j :| e in docs && MarksAt(e, j, n);
    assert d == e;
    OverlapSharesEnd(d, i, j);
  }

  // ---- Nothing in a list: nothing wrong ----------------------------------------------------------------------------

  lemma {:induction false} NoUnknown(d: Document, k: nat)
    requires k <= |d.lines|
    ensures Unknown(d, k) == [] <==> forall i: nat :: i < k && Declares(d, i) ==> d.lines[i].name == HISTORY
  {
    hide FenceAt;
    if k > 0 {
      NoUnknown(d, k - 1);
      assert Unknown(d, k) == [] <==> Unknown(d, k - 1) == [] && (Declares(d, k - 1) ==> d.lines[k - 1].name == HISTORY);
    }
  }

  lemma {:induction false} NoneBlockless(d: Document, ds: seq<nat>)
    requires AllWithin(ds, |d.lines|)
    ensures Blockless(d, ds) == [] <==> forall i: nat :: i in ds ==> HasBlock(d, i)
  {
    hide HasBlock;
    if ds != [] {
      var init, last := ds[..|ds| - 1], ds[|ds| - 1];
      assert ds == init + [last];
      NoneBlockless(d, init);
    }
  }

  /** Every marker of the document is of the one class there is and has a block. */
  ghost predicate WellMarked(d: Document) {
    forall i: nat :: Declares(d, i) ==> d.lines[i].name == HISTORY && HasBlock(d, i)
  }

  lemma NoDocumentFailure(d: Document)
    ensures FoundOf(d).failures == [] <==> WellMarked(d)
  {
    hide FenceAt;
    hide HasBlock;
    var n := |d.lines|;
    NoUnknown(d, n);
    NoneBlockless(d, Declared(d.lines, n));
    forall i: nat ensures i in Declared(d.lines, n) <==> Declares(d, i) && d.lines[i].name == HISTORY {
      DeclaredHolds(d.lines, n, i);
    }
  }

  lemma {:induction false} NoFoundFailure(docs: seq<Document>)
    ensures FoundIn(docs).failures == [] <==> forall d :: d in docs ==> WellMarked(d)
  {
    hide FoundOf;
    hide WellMarked;
    if docs != [] {
      var init, last := docs[..|docs| - 1], docs[|docs| - 1];
      assert docs == init + [last];
      NoFoundFailure(init);
      NoDocumentFailure(last);
    }
  }

  lemma {:induction false} NoFailures(markers: seq<Marker>, entries: seq<Entry>, answer: string -> Kind, cites: seq<Citation>)
    ensures Failures(markers, entries, answer, cites) == [] <==>
            forall c :: c in cites ==> !Decision(markers, entries, answer, c).NotCommit? && !Decision(markers, entries, answer, c).Unexcused?
  {
    hide Decision;
    if cites != [] {
      var init, last := cites[..|cites| - 1], cites[|cites| - 1];
      assert cites == init + [last];
      NoFailures(markers, entries, answer, init);
    }
  }

  lemma {:induction false} NoStaleEntries(cites: seq<Citation>, answer: string -> Kind, entries: seq<Entry>)
    ensures StaleEntries(cites, answer, entries) == [] <==> forall e :: e in entries ==> Cited(cites, answer, e.hash)
  {
    hide Cited;
    if entries != [] {
      var init, last := entries[..|entries| - 1], entries[|entries| - 1];
      assert entries == init + [last];
      NoStaleEntries(cites, answer, init);
    }
  }

  lemma {:induction false} NoStaleMarkers(markers: seq<Marker>, entries: seq<Entry>, answer: string -> Kind, cites: seq<Citation>, n: nat)
    requires n <= |markers|
    ensures StaleMarkers(markers, entries, answer, cites, n) == [] <==> forall i :: 0 <= i < n ==> Credited(markers, entries, answer, cites, i)
  {
    hide Credited;
    if n > 0 {
      NoStaleMarkers(markers, entries, answer, cites, n - 1);
    }
  }

  // ---- A clean report --------------------------------------------------------------------------------------------------

  /** What a scan into an empty report leaves empty if it is clean. */
  ghost predicate ScansClean(docs: seq<Document>, entries: seq<Entry>, answer: string -> Kind) {
    var found := FoundIn(docs);
    && found.failures == [] && Failures(found.markers, entries, answer, found.cites) == []
    && StaleEntries(found.cites, answer, entries) == []
    && StaleMarkers(found.markers, entries, answer, found.cites, |found.markers|) == []
  }

  /** A citation only a marker can excuse. */
  ghost predicate NeedsMarker(entries: seq<Entry>, answer: string -> Kind, c: Citation) {
    Missing(answer, c.hash) && !Pinned(entries, c.hash)
  }

  ghost predicate Excused(docs: seq<Document>, entries: seq<Entry>, answer: string -> Kind, c: Citation) {
    || answer(c.hash).Commit?
    || (Missing(answer, c.hash) && Pinned(entries, c.hash))
    || (NeedsMarker(entries, answer, c) && IsCovered(docs, c))
  }

  ghost predicate Earns(docs: seq<Document>, entries: seq<Entry>, answer: string -> Kind, m: Marker) {
    exists c :: IsCitation(docs, c) && m.Covers(c) && NeedsMarker(entries, answer, c)
  }

  /** What the credits settle, in terms of the markers: excuses, entries, and blocks that are needed and disjoint. */
  ghost predicate SettledBy(docs: seq<Document>, entries: seq<Entry>, answer: string -> Kind) {
    && (forall c :: IsCitation(docs, c) ==> Excused(docs, entries, answer, c))
    && (forall e :: e in entries ==> Missing(answer, e.hash) && exists c :: IsCitation(docs, c) && c.hash == e.hash)
    && (forall d :: d in docs ==> WellMarked(d))
    && (forall m :: IsMarker(docs, m) ==> Earns(docs, entries, answer, m))
    && (forall m, n :: IsMarker(docs, m) && IsMarker(docs, n) && m.doc == n.doc && m.line < n.line ==> m.end <= n.start)
  }

  /** What the crediting needs to know of the lists. */
  ghost predicate Lists(docs: seq<Document>, found: Found) {
    && (forall c :: c in found.cites <==> IsCitation(docs, c))
    && (forall m :: m in found.markers <==> IsMarker(docs, m))
    && ByLine(found.markers)
  }

  lemma DecisionExcuses(docs: seq<Document>, found: Found, entries: seq<Entry>, answer: string -> Kind, c: Citation)
    requires Lists(docs, found)
    ensures var s := Decision(found.markers, entries, answer, c);
      (!s.NotCommit? && !s.Unexcused?) <==> Excused(docs, entries, answer, c)
    ensures forall i: nat :: Decision(found.markers, entries, answer, c) == Marked(i) <==>
              NeedsMarker(entries, answer, c) && FirstCover(found.markers, c, 0) == Some(i)
  {
    hide IsMarker;
    hide IsCitation;
    hide FirstCover;
    DecisionIs(found.markers, entries, answer, c);
    hide Decision;
    var first := FirstCover(found.markers, c, 0);
    if first.Some? {
      assert found.markers[first.value] in found.markers;
    } else {
      forall m | IsMarker(docs, m) ensures !m.Covers(c) {
        assert m in found.markers;
      }
    }
  }

  /** If every marker is credited, no two blocks overlap: the later one would have got nothing. */
  lemma CreditedDisjoint(docs: seq<Document>, found: Found, entries: seq<Entry>, answer: string -> Kind, p: nat, q: nat)
    requires DistinctNames(docs) && Lists(docs, found) && p < |found.markers| && q < |found.markers|
    requires found.markers[p].doc == found.markers[q].doc && found.markers[p].line < found.markers[q].line
    requires Credited(found.markers, entries, answer, found.cites, q)
    ensures found.markers[p].end <= found.markers[q].start
  {
    hide IsMarker;
    hide IsCitation;
    hide Decision;
    hide FirstCover;
    var m, n := found.markers[p], found.markers[q];
    assert m in found.markers && n in found.markers;
    MarkersOverlap(docs, m, n);
    var k :| 0 <= k < |found.cites| && Decision(found.markers, entries, answer, found.cites[k]) == Marked(q);
    var c := found.cites[k];
    DecisionExcuses(docs, found, entries, answer, c);
    assert n.Covers(c) && !m.Covers(c) by {
      assert p < q;
    }
  }

  lemma CreditedEarns(docs: seq<Document>, found: Found, entries: seq<Entry>, answer: string -> Kind, q: nat)
    requires Lists(docs, found) && q < |found.markers| && Credited(found.markers, entries, answer, found.cites, q)
    ensures Earns(docs, entries, answer, found.markers[q])
  {
    hide IsMarker;
    hide IsCitation;
    hide Decision;
    hide FirstCover;
    var k :| 0 <= k < |found.cites| && Decision(found.markers, entries, answer, found.cites[k]) == Marked(q);
    var c := found.cites[k];
    assert c in found.cites;
    DecisionExcuses(docs, found, entries, answer, c);
  }

  /** With disjoint blocks the first marker that covers a citation is the only one. */
  lemma EarnsCredited(docs: seq<Document>, found: Found, entries: seq<Entry>, answer: string -> Kind, q: nat)
    requires Lists(docs, found) && SettledBy(docs, entries, answer) && q < |found.markers|
    ensures Credited(found.markers, entries, answer, found.cites, q)
  {
    hide IsMarker;
    hide IsCitation;
    hide Decision;
    hide FirstCover;
    hide WellMarked;
    var n := found.markers[q];
    assert n in found.markers;
    assert Earns(docs, entries, answer, n);
    var c :| IsCitation(docs, c) && n.Covers(c) && NeedsMarker(entries, answer, c);
    assert c in found.cites;
    forall p | 0 <= p < q ensures !found.markers[p].Covers(c) {
      assert found.markers[p] in found.markers;
    }
    DecisionExcuses(docs, found, entries, answer, c);
    assert Decision(found.markers, entries, answer, c) == Marked(q);
  }

  lemma CitedHolds(docs: seq<Document>, found: Found, answer: string -> Kind, hash: string)
    requires Lists(docs, found)
    ensures Cited(found.cites, answer, hash) <==> Missing(answer, hash) && exists c :: IsCitation(docs, c) && c.hash == hash
  {
    hide IsMarker;
    hide IsCitation;
    hide Missing;
    if exists c :: IsCitation(docs, c) && c.hash == hash {
      var c :| IsCitation(docs, c) && c.hash == hash;
      assert c in found.cites;
    }
    forall k | 0 <= k < |found.cites| ensures IsCitation(docs, found.cites[k]) {
      assert found.cites[k] in found.cites;
    }
  }

  lemma ListsOf(docs: seq<Document>)
    requires DistinctNames(docs)
    ensures Lists(docs, FoundIn(docs))
  {
    FoundHolds(docs);
    FoundByLine(docs);
  }

  lemma CleanIsSettled(docs: seq<Document>, entries: seq<Entry>, answer: string -> Kind)
    requires DistinctNames(docs) && ScansClean(docs, entries, answer)
    ensures SettledBy(docs, entries, answer)
  {
    var found := FoundIn(docs);
    ListsOf(docs);
    NoFoundFailure(docs);
    NoFailures(found.markers, entries, answer, found.cites);
    NoStaleEntries(found.cites, answer, entries);
    NoStaleMarkers(found.markers, entries, answer, found.cites, |found.markers|);
    hide *;
    hide Lists;
    SettledParts(docs, found, entries, answer);
  }

  lemma SettledParts(docs: seq<Document>, found: Found, entries: seq<Entry>, answer: string -> Kind)
    requires DistinctNames(docs) && Lists(docs, found)
    requires forall c :: c in found.cites ==> !Decision(found.markers, entries, answer, c).NotCommit? && !Decision(found.markers, entries, answer, c).Unexcused?
    requires forall e :: e in entries ==> Cited(found.cites, answer, e.hash)
    requires forall d :: d in docs ==> WellMarked(d)
    requires forall i :: 0 <= i < |found.markers| ==> Credited(found.markers, entries, answer, found.cites, i)
    ensures SettledBy(docs, entries, answer)
  {
    hide IsMarker;
    hide IsCitation;
    hide Decision;
    hide Excused;
    hide Earns;
    hide Cited;
    hide WellMarked;
    hide Credited;
    forall c | IsCitation(docs, c) ensures Excused(docs, entries, answer, c) {
      assert c in found.cites;
      DecisionExcuses(docs, found, entries, answer, c);
    }
    forall e | e in entries ensures Missing(answer, e.hash) && exists c :: IsCitation(docs, c) && c.hash == e.hash {
      CitedHolds(docs, found, answer, e.hash);
    }
    forall m | IsMarker(docs, m) ensures Earns(docs, entries, answer, m) {
      var q :| 0 <= q < |found.markers| && found.markers[q] == m;
      CreditedEarns(docs, found, entries, answer, q);
    }
    forall m, n | IsMarker(docs, m) && IsMarker(docs, n) && m.doc == n.doc && m.line < n.line ensures m.end <= n.start {
      assert m in found.markers && n in found.markers;
      var p :| 0 <= p < |found.markers| && found.markers[p] == m;
      var q :| 0 <= q < |found.markers| && found.markers[q] == n;
      CreditedDisjoint(docs, found, entries, answer, p, q);
    }
  }

  lemma SettledIsClean(docs: seq<Document>, entries: seq<Entry>, answer: string -> Kind)
    requires DistinctNames(docs) && SettledBy(docs, entries, answer)
    ensures ScansClean(docs, entries, answer)
  {
    var found := FoundIn(docs);
    ListsOf(docs);
    NoFoundFailure(docs);
    NoFailures(found.markers, entries, answer, found.cites);
    NoStaleEntries(found.cites, answer, entries);
    NoStaleMarkers(found.markers, entries, answer, found.cites, |found.markers|);
    hide FoundIn;
    hide IsMarker;
    hide IsCitation;
    hide Decision;
    hide Excused;
    hide Earns;
    hide Cited;
    hide WellMarked;
    hide Credited;
    hide Failures;
    hide StaleEntries;
    hide StaleMarkers;
    forall c | c in found.cites
      ensures !Decision(found.markers, entries, answer, c).NotCommit? && !Decision(found.markers, entries, answer, c).Unexcused?
    {
      DecisionExcuses(docs, found, entries, answer, c);
    }
    forall e | e in entries ensures Cited(found.cites, answer, e.hash) {
      CitedHolds(docs, found, answer, e.hash);
    }
    forall i | 0 <= i < |found.markers| ensures Credited(found.markers, entries, answer, found.cites, i) {
      EarnsCredited(docs, found, entries, answer, i);
    }
  }

  // ---- In terms of the lines alone ---------------------------------------------------------------------------

  /** Line `k` is in the block behind line `i`: the first run of lines that are not blank, once blank and marker lines are passed. */
  ghost predicate InBlock(lines: seq<Line>, i: int, k: int) {
    && 0 <= i && k < |lines|
    && exists s :: i < s <= k && FirstBehind(lines, i, s) && forall j :: s <= j <= k ==> !lines[j].Blank?
  }

  ghost predicate FirstBehind(lines: seq<Line>, i: int, s: int) {
    && 0 <= i < s < |lines| && !lines[s].Blank? && !lines[s].Mark?
    && forall j :: i < j < s ==> lines[j].Blank? || lines[j].Mark?
  }

  /** Line `k` stands in a fenced block, or closes it: the fence that opened it has not been closed in front of the line. */
  ghost predicate IsFenced(lines: seq<Line>, k: nat) {
    exists j: nat :: j < k <= |lines| && !IsFenced(lines, j) && lines[j].Fence? && forall m :: j < m < k ==> lines[m] != lines[j]
  }

  ghost predicate CitedAt(d: Document, k: nat, hash: string) {
    k < |d.lines| && !IsFenced(d.lines, k) && d.lines[k].Prose? && hash in d.lines[k].hashes
  }

  ghost predicate MarkedAt(d: Document, i: nat) {
    i < |d.lines| && !IsFenced(d.lines, i) && d.lines[i].Mark?
  }

  ghost predicate IsPinned(entries: seq<Entry>, hash: string) {
    exists e :: e in entries && e.hash == hash
  }

  ghost predicate IsExcused(d: Document, k: nat, entries: seq<Entry>, answer: string -> Kind, hash: string) {
    || answer(hash) == Commit
    || (answer(hash) in {Unreachable, Absent} && (IsPinned(entries, hash) || InSomeBlock(d, k)))
  }

  ghost predicate IsNeeded(d: Document, i: nat, entries: seq<Entry>, answer: string -> Kind) {
    exists k: nat, hash ::
      InBlock(d.lines, i, k) && CitedAt(d, k, hash) && answer(hash) in {Unreachable, Absent} && !IsPinned(entries, hash)
  }

  ghost predicate Overlap(lines: seq<Line>, i: nat, j: nat) {
    exists k :: InBlock(lines, i, k) && InBlock(lines, j, k)
  }

  /**
    Every hash resolves, or cannot be resolved and is pinned or stands in the block behind a
    marker; every entry is cited and cannot be resolved; every marker is of the one class and
    its block holds a hash that needs it; and no two blocks of a document share a line.
   */
  ghost predicate Honest(docs: seq<Document>, entries: seq<Entry>, answer: string -> Kind) {
    && (forall d, k: nat, hash :: d in docs && CitedAt(d, k, hash) ==> IsExcused(d, k, entries, answer, hash))
    && (forall e :: e in entries ==> answer(e.hash) in {Unreachable, Absent} && exists d, k: nat :: d in docs && CitedAt(d, k, e.hash))
    && (forall d, i: nat :: d in docs && MarkedAt(d, i) ==> d.lines[i].name == "history" && IsNeeded(d, i, entries, answer))
    && (forall d, i: nat, j: nat :: d in docs && MarkedAt(d, i) && MarkedAt(d, j) && i < j ==> !Overlap(d.lines, i, j))
  }

  /** A fence of character `c` stands before line `k`. */
  ghost predicate OpenedBy(lines: seq<Line>, k: nat, c: char) {
    exists j: nat :: j < k <= |lines| && !IsFenced(lines, j) && lines[j] == Fence(c) && forall m :: j < m < k ==> lines[m] != Fence(c)
  }

  ghost predicate FenceAgrees(lines: seq<Line>, k: nat)
    requires k <= |lines|
  {
    (IsFenced(lines, k) <==> FenceAt(lines, k).Some?) && forall c :: FenceAt(lines, k) == Some(c) <==> OpenedBy(lines, k, c)
  }

  lemma {:induction false} FenceIs(lines: seq<Line>, k: nat)
    requires k <= |lines|
    ensures FenceAgrees(lines, k)
    decreases k
  {
    if k > 0 {
      hide FenceAgrees;
      FenceIs(lines, k - 1);
      FenceStep(lines, k - 1);
    }
  }

  lemma OpenedStep(lines: seq<Line>, k: nat, c: char)
    requires k < |lines|
    ensures OpenedBy(lines, k + 1, c) <==>
      (OpenedBy(lines, k, c) && lines[k] != Fence(c)) || (!IsFenced(lines, k) && lines[k] == Fence(c))
  {
    hide IsFenced;
    if OpenedBy(lines, k, c) && lines[k] != Fence(c) {
      var j: nat :| j < k && !IsFenced(lines, j) && lines[j] == Fence(c) && forall m :: j < m < k ==> lines[m] != Fence(c);
      assert j < k + 1 && forall m :: j < m < k + 1 ==> lines[m] != Fence(c);
    }
    if OpenedBy(lines, k + 1, c) {
      var j: nat :| j < k + 1 && !IsFenced(lines, j) && lines[j] == Fence(c) && forall m :: j < m < k + 1 ==> lines[m] != Fence(c);
    }
  }

  lemma FencedIffOpened(lines: seq<Line>, k: nat)
    requires k <= |lines|
    ensures IsFenced(lines, k) <==> exists c :: OpenedBy(lines, k, c)
  {
    if IsFenced(lines, k) {
      var j: nat :| j < k && !IsFenced(lines, j) && lines[j].Fence? && forall m :: j < m < k ==> lines[m] != lines[j];
      assert OpenedBy(lines, k, lines[j].mark);
    }
    if c :| OpenedBy(lines, k, c) {
      var j: nat :| j < k && !IsFenced(lines, j) && lines[j] == Fence(c) && forall m :: j < m < k ==> lines[m] != Fence(c);
    }
  }

  lemma FenceStep(lines: seq<Line>, k: nat)
    requires k < |lines| && FenceAgrees(lines, k)
    ensures FenceAgrees(lines, k + 1)
  {
    var before, after := FenceAt(lines, k), FenceAt(lines, k + 1);
    assert after == FenceAfter(before, lines[k]);
    hide FenceAt;
    hide IsFenced;
    hide OpenedBy;
    FencedIffOpened(lines, k + 1);
    forall c ensures after == Some(c) <==> OpenedBy(lines, k + 1, c) {
      OpenedStep(lines, k, c);
    }
    if after.Some? {
      assert OpenedBy(lines, k + 1, after.value);
    }
  }

  lemma OpenIsNotFenced(lines: seq<Line>, k: nat)
    requires k < |lines|
    ensures IsOpen(lines, k) <==> !IsFenced(lines, k)
  {
    FenceIs(lines, k);
  }

  /** A marker covers exactly the citations in the block behind its line. */
  lemma CoversIffInBlock(d: Document, i: nat, m: Marker, c: Citation)
    requires MarksAt(d, i, m)
    ensures m.Covers(c) <==> c.doc == d.name && InBlock(d.lines, i, c.line - 1)
  {
    hide FenceAt;
    var start := BlockStart(d.lines, i + 1);
    var end := BlockEnd(d.lines, start);
    if c.doc == d.name && InBlock(d.lines, i, c.line - 1) {
      var k := c.line - 1;
      var s :| i < s <= k && FirstBehind(d.lines, i, s) && forall j :: s <= j <= k ==> !d.lines[j].Blank?;
      assert s == start;
      assert k < end;
    }
    if m.Covers(c) {
      assert FirstBehind(d.lines, i, start);
    }
  }

  lemma HasBlockIff(d: Document, i: nat)
    requires i < |d.lines|
    ensures HasBlock(d, i) <==> exists k: nat :: InBlock(d.lines, i, k)
  {
    var start := BlockStart(d.lines, i + 1);
    if HasBlock(d, i) {
      assert FirstBehind(d.lines, i, start) && InBlock(d.lines, i, start);
    }
    if k: nat :| InBlock(d.lines, i, k) {
      var s :| i < s <= k && FirstBehind(d.lines, i, s);
      assert s == start;
    }
  }

  lemma CitesIff(d: Document, k: nat, c: Citation)
    ensures CitesAt(d, k, c) <==> c == Citation(d.name, k + 1, c.hash) && CitedAt(d, k, c.hash)
  {
    if k < |d.lines| {
      OpenIsNotFenced(d.lines, k);
    }
    hide IsOpen;
    hide IsFenced;
  }

  lemma MarksIff(d: Document, i: nat)
    ensures Declares(d, i) <==> MarkedAt(d, i)
  {
    if i < |d.lines| {
      OpenIsNotFenced(d.lines, i);
    }
    hide IsOpen;
    hide IsFenced;
  }

  lemma PinnedIff(entries: seq<Entry>, hash: string)
    ensures Pinned(entries, hash) <==> IsPinned(entries, hash)
  {
    if Pinned(entries, hash) {
      var i :| 0 <= i < |entries| && entries[i].hash == hash;
      assert entries[i] in entries;
    }
  }

  lemma SameDocument(docs: seq<Document>, d: Document, e: Document)
    requires DistinctNames(docs) && d in docs && e in docs && d.name == e.name
    ensures d == e
  {
  }

  /** Every marker of a well-marked document is a marker of the lists. */
  lemma MarkerOf(docs: seq<Document>, d: Document, i: nat)
    requires d in docs && WellMarked(d) && MarkedAt(d, i)
    ensures MarksAt(d, i, MarkerAt(d, i)) && IsMarker(docs, MarkerAt(d, i))
  {
    MarksIff(d, i);
    hide IsOpen;
    hide IsFenced;
    hide MarkerAt;
    hide HasBlock;
  }

  lemma ExcusedIff(docs: seq<Document>, entries: seq<Entry>, answer: string -> Kind, d: Document, k: nat, hash: string)
    requires DistinctNames(docs) && d in docs && (forall e :: e in docs ==> WellMarked(e)) && CitedAt(d, k, hash)
    ensures Excused(docs, entries, answer, Citation(d.name, k + 1, hash)) <==> IsExcused(d, k, entries, answer, hash)
  {
    var c := Citation(d.name, k + 1, hash);
    PinnedIff(entries, hash);
    CoveredIff(docs, d, c, k);
    hide Pinned;
    hide IsPinned;
    hide IsMarker;
  }

  ghost predicate IsCovered(docs: seq<Document>, c: Citation) {
    exists m :: IsMarker(docs, m) && m.Covers(c)
  }

  ghost predicate InSomeBlock(d: Document, k: nat) {
    exists i: nat :: MarkedAt(d, i) && InBlock(d.lines, i, k)
  }

  /** A citation is covered by some marker if and only if its line is in the block behind some marked line. */
  lemma CoveredIff(docs: seq<Document>, d: Document, c: Citation, k: nat)
    requires DistinctNames(docs) && d in docs && (forall e :: e in docs ==> WellMarked(e)) && c.doc == d.name && c.line == k + 1
    ensures IsCovered(docs, c) <==> InSomeBlock(d, k)
  {
    hide HasBlock;
    hide IsFenced;
    hide IsOpen;
    hide InBlock;
    hide WellMarked;
    if i: nat :| MarkedAt(d, i) && InBlock(d.lines, i, k) {
      MarkerOf(docs, d, i);
      CoversIffInBlock(d, i, MarkerAt(d, i), c);
    }
    if m :| IsMarker(docs, m) && m.Covers(c) {
      var e, i: nat :| e in docs && MarksAt(e, i, m);
      CoversIffInBlock(e, i, m, c);
      SameDocument(docs, d, e);
      MarksIff(e, i);
    }
  }

  lemma EarnsIff(docs: seq<Document>, entries: seq<Entry>, answer: string -> Kind, d: Document, i: nat)
    requires DistinctNames(docs) && d in docs && i < |d.lines| && MarksAt(d, i, MarkerAt(d, i))
    ensures Earns(docs, entries, answer, MarkerAt(d, i)) <==> IsNeeded(d, i, entries, answer)
  {
    hide HasBlock;
    hide MarksAt;
    hide MarkerAt;
    var m := MarkerAt(d, i);
    if Earns(docs, entries, answer, m) {
      var c :| IsCitation(docs, c) && m.Covers(c) && NeedsMarker(entries, answer, c);
      CoversIffInBlock(d, i, m, c);
      PinnedIff(entries, c.hash);
      EarnedIsNeeded(docs, entries, answer, d, i, c);
    }
    if IsNeeded(d, i, entries, answer) {
      var k: nat, hash :| InBlock(d.lines, i, k) && CitedAt(d, k, hash) && answer(hash) in {Unreachable, Absent} && !IsPinned(entries, hash);
      var c := Citation(d.name, k + 1, hash);
      hide IsFenced;
      hide IsOpen;
      hide InBlock;
      PinnedIff(entries, hash);
      CitesIff(d, k, c);
      CoversIffInBlock(d, i, m, c);
      assert CitesAt(d, k, c) && IsCitation(docs, c);
    }
  }

  lemma EarnedIsNeeded(docs: seq<Document>, entries: seq<Entry>, answer: string -> Kind, d: Document, i: nat, c: Citation)
    requires DistinctNames(docs) && d in docs && IsCitation(docs, c) && c.doc == d.name && InBlock(d.lines, i, c.line - 1)
    requires answer(c.hash) in {Unreachable, Absent} && !IsPinned(entries, c.hash)
    ensures IsNeeded(d, i, entries, answer)
  {
    var e, k: nat :| e in docs && CitesAt(e, k, c);
    SameDocument(docs, d, e);
    CitesIff(e, k, c);
    hide IsFenced;
    hide IsOpen;
    hide InBlock;
    hide IsPinned;
    assert InBlock(d.lines, i, k) && CitedAt(d, k, c.hash);
  }

  /** Any citation on line `k`. */
  function OnLine(d: Document, k: nat): Citation {
    Citation(d.name, k + 1, "")
  }

  lemma OverlapIff(d: Document, i: nat, j: nat)
    requires i < j < |d.lines| && MarksAt(d, i, MarkerAt(d, i)) && MarksAt(d, j, MarkerAt(d, j))
    ensures Overlap(d.lines, i, j) <==> MarkerAt(d, i).end > MarkerAt(d, j).start
  {
    var m, n := MarkerAt(d, i), MarkerAt(d, j);
    OverlapSharesEnd(d, i, j);
    forall k: nat ensures m.Covers(OnLine(d, k)) <==> InBlock(d.lines, i, k) {
      CoversIffInBlock(d, i, m, OnLine(d, k));
    }
    forall k: nat ensures n.Covers(OnLine(d, k)) <==> InBlock(d.lines, j, k) {
      CoversIffInBlock(d, j, n, OnLine(d, k));
    }
    var first := n.start - 1;
    assert first + 1 == n.start < n.end;
    hide FenceAt;
    hide BlockStart;
    hide BlockEnd;
    hide InBlock;
    assert m.doc == d.name == n.doc;
    if m.end > n.start {
      assert n.Covers(OnLine(d, first)) && m.Covers(OnLine(d, first));
      assert InBlock(d.lines, i, first) && InBlock(d.lines, j, first);
    }
    if Overlap(d.lines, i, j) {
      var k :| InBlock(d.lines, i, k) && InBlock(d.lines, j, k);
      BlockIsBehind(d.lines, i, k);
      assert m.Covers(OnLine(d, k)) && n.Covers(OnLine(d, k));
    }
  }

  lemma BlockIsBehind(lines: seq<Line>, i: int, k: int)
    requires InBlock(lines, i, k)
    ensures 0 <= i < k < |lines|
  {
  }

  /** The marks of a document are in order in both senses. */
  lemma WellMarkedIf(d: Document, entries: seq<Entry>, answer: string -> Kind)
    requires forall i: nat :: MarkedAt(d, i) ==> d.lines[i].name == "history" && IsNeeded(d, i, entries, answer)
    ensures WellMarked(d)
  {
    forall i: nat | Declares(d, i) ensures d.lines[i].name == HISTORY && HasBlock(d, i) {
      MarksIff(d, i);
      HasBlockIff(d, i);
      var k: nat, hash :| InBlock(d.lines, i, k) && CitedAt(d, k, hash);
    }
  }

  lemma HonestIsSettled(docs: seq<Document>, entries: seq<Entry>, answer: string -> Kind)
    requires DistinctNames(docs) && Honest(docs, entries, answer)
    ensures SettledBy(docs, entries, answer)
  {
    hide IsFenced;
    hide IsOpen;
    hide InBlock;
    hide MarkerAt;
    hide HasBlock;
    hide WellMarked;
    hide IsExcused;
    hide IsNeeded;
    hide Excused;
    hide Earns;
    hide Overlap;
    forall d | d in docs ensures WellMarked(d) {
      WellMarkedIf(d, entries, answer);
    }
    forall c | IsCitation(docs, c) ensures Excused(docs, entries, answer, c) {
      var d, k: nat :| d in docs && CitesAt(d, k, c);
      CitesIff(d, k, c);
      ExcusedIff(docs, entries, answer, d, k, c.hash);
    }
    forall e | e in entries ensures Missing(answer, e.hash) && exists c :: IsCitation(docs, c) && c.hash == e.hash {
      var d, k: nat :| d in docs && CitedAt(d, k, e.hash);
      CitesIff(d, k, Citation(d.name, k + 1, e.hash));
      assert IsCitation(docs, Citation(d.name, k + 1, e.hash));
    }
    MarkersSettle(docs, entries, answer);
  }

  lemma MarkersSettle(docs: seq<Document>, entries: seq<Entry>, answer: string -> Kind)
    requires DistinctNames(docs) && Honest(docs, entries, answer) && forall d :: d in docs ==> WellMarked(d)
    ensures forall m :: IsMarker(docs, m) ==> Earns(docs, entries, answer, m)
    ensures forall m, n :: IsMarker(docs, m) && IsMarker(docs, n) && m.doc == n.doc && m.line < n.line ==> m.end <= n.start
  {
    hide IsFenced;
    hide IsOpen;
    hide InBlock;
    hide HasBlock;
    hide WellMarked;
    hide IsExcused;
    hide IsNeeded;
    hide Earns;
    hide Overlap;
    forall m | IsMarker(docs, m) ensures Earns(docs, entries, answer, m) {
      var d, i: nat :| d in docs && MarksAt(d, i, m);
      MarksIff(d, i);
      EarnsIff(docs, entries, answer, d, i);
    }
    forall m, n | IsMarker(docs, m) && IsMarker(docs, n) && m.doc == n.doc && m.line < n.line ensures m.end <= n.start {
      var d, i: nat :| d in docs && MarksAt(d, i, m);
      var e, j: nat :| e in docs && MarksAt(e, j, n);
      SameDocument(docs, d, e);
      MarksIff(d, i);
      MarksIff(d, j);
      OverlapIff(d, i, j);
    }
  }

  lemma SettledIsHonest(docs: seq<Document>, entries: seq<Entry>, answer: string -> Kind)
    requires DistinctNames(docs) && SettledBy(docs, entries, answer)
    ensures Honest(docs, entries, answer)
  {
    hide IsFenced;
    hide IsOpen;
    hide InBlock;
    hide HasBlock;
    hide WellMarked;
    hide IsExcused;
    hide IsNeeded;
    hide Excused;
    hide Earns;
    hide Overlap;
    forall d, k: nat, hash | d in docs && CitedAt(d, k, hash) ensures IsExcused(d, k, entries, answer, hash) {
      var c := Citation(d.name, k + 1, hash);
      CitesIff(d, k, c);
      assert IsCitation(docs, c);
      ExcusedIff(docs, entries, answer, d, k, hash);
    }
    forall e | e in entries
      ensures answer(e.hash) in {Unreachable, Absent} && exists d, k: nat :: d in docs && CitedAt(d, k, e.hash)
    {
      var c :| IsCitation(docs, c) && c.hash == e.hash;
      var d, k: nat :| d in docs && CitesAt(d, k, c);
      CitesIff(d, k, c);
    }
    SettledMarks(docs, entries, answer);
  }

  lemma SettledMarks(docs: seq<Document>, entries: seq<Entry>, answer: string -> Kind)
    requires DistinctNames(docs) && SettledBy(docs, entries, answer)
    ensures forall d, i: nat :: d in docs && MarkedAt(d, i) ==> d.lines[i].name == "history" && IsNeeded(d, i, entries, answer)
    ensures forall d, i: nat, j: nat :: d in docs && MarkedAt(d, i) && MarkedAt(d, j) && i < j ==> !Overlap(d.lines, i, j)
  {
    hide IsFenced;
    hide IsOpen;
    hide InBlock;
    hide HasBlock;
    hide IsNeeded;
    hide Earns;
    hide Overlap;
    hide Excused;
    forall d, i: nat | d in docs && MarkedAt(d, i) ensures d.lines[i].name == "history" && IsNeeded(d, i, entries, answer) {
      MarksIff(d, i);
      MarkerOf(docs, d, i);
      EarnsIff(docs, entries, answer, d, i);
    }
    forall d, i: nat, j: nat | d in docs && MarkedAt(d, i) && MarkedAt(d, j) && i < j ensures !Overlap(d.lines, i, j) {
      MarkerOf(docs, d, i);
      MarkerOf(docs, d, j);
      OverlapIff(d, i, j);
    }
  }

  lemma CleanIsHonest(docs: seq<Document>, entries: seq<Entry>, answer: string -> Kind)
    requires DistinctNames(docs) && ScansClean(docs, entries, answer)
    ensures Honest(docs, entries, answer)
  {
    CleanIsSettled(docs, entries, answer);
    SettledIsHonest(docs, entries, answer);
  }

  lemma HonestIsClean(docs: seq<Document>, entries: seq<Entry>, answer: string -> Kind)
    requires DistinctNames(docs) && Honest(docs, entries, answer)
    ensures ScansClean(docs, entries, answer)
  {
    HonestIsSettled(docs, entries, answer);
    SettledIsClean(docs, entries, answer);
  }

  /** The gate passes exactly the documents that are honest about their hashes. */
  method Check(docs: seq<Document>, entries: seq<Entry>, answer: string -> Kind) returns (clean: bool)
    requires DistinctNames(docs)
    ensures clean <==> Honest(docs, entries, answer)
  {
    var report := new Report();
    report.Scan(docs, entries, answer);
    clean := report.Clean();
    if Honest(docs, entries, answer) {
      HonestIsClean(docs, entries, answer);
    }
    if ScansClean(docs, entries, answer) {
      CleanIsHonest(docs, entries, answer);
    }
  }
}
