/** The verdicts of `scripts/check_anchor_drift.py` and the loop that collects them. */
module Drift {
  import opened Common
  import opened Anchors
  import opened DiffHarm
  import opened DiffText
  import opened LineMap
  import opened Pairing
  import opened Text

  datatype Kind = Stale | Ambiguous | Correct | Unchanged | NotCompared

  /** A cited or mapped extent: one line, or a range. */
  datatype Extent = Extent(first: int, last: Option<int>)

  datatype Reason = NoReason | OtherTarget | Renamed(to: string) | Deleted | LineRemoved
                  | AlreadyRepointed | RangeResized | Moved | LineRewritten

  datatype Verdict = Verdict(
    doc: string, line: nat, target: string, old_: Extent, new_: Option<Extent>,
    kind: Kind, reason: Reason, continuation: bool)

  function TargetOf(a: Anchor): string {
    if a.target.Some? && a.target.value != "" then a.target.value else a.path
  }

  function Shown(a: Anchor): Extent {
    Extent(a.start, if a.end.None? then None else Some(a.end.value))
  }

  /** An endpoint the anchor cites. */
  predicate Cites(a: Anchor, line: int) {
    line == a.start || (a.end.Some? && line == a.end.value)
  }

  /** The extent the map gives for an anchor whose endpoints both survive. */
  ghost predicate MappedTo(hunks: seq<Hunk>, a: Anchor, e: Extent) {
    && OldToNew(hunks, a.start) == Some(e.first)
    && e.last.Some? == a.end.Some?
    && (a.end.Some? ==> OldToNew(hunks, a.end.value) == e.last)
  }

  ghost predicate CitesRemoved(hunks: seq<Hunk>, a: Anchor) {
    exists l :: Cites(a, l) && OldToNew(hunks, l).None?
  }

  /** When each verdict is given, and the numbers it names. */
  ghost predicate Judged(diff: DiffMap, b: Anchor, h: Anchor, v: Verdict) {
    var target := TargetOf(b);
    var hunks := if target in diff.files then diff.files[target] else [];
    && v.doc == h.doc && v.line == h.line && v.continuation == h.continuation
    && v.target == target && v.old_ == Shown(b)
    && (v.kind == NotCompared <==> h.target != b.target)
    && (v.kind == Unchanged <==>
        h.target == b.target && target !in diff.renames && target !in diff.deleted && hunks == [])
    && (v.kind == Ambiguous <==>
        && h.target == b.target
        && (target in diff.renames || target in diff.deleted || CitesRemoved(hunks, b)))
    && (v.kind in {Correct, Stale} <==> v.new_.Some?)
    && (v.new_.Some? ==> MappedTo(hunks, b, v.new_.value))
    && (v.kind == Correct <==> v.new_ == Some(Shown(h)))
    && (v.reason == RangeResized <==>
        && v.kind == Stale
        && exists k :: k in hunks && k.Touches(b.start, if b.end.Some? then b.end.value else b.start))
  }

  /** The verdict on a pair, in the order of the program's questions. */
  method Judge(diff: DiffMap, b: Anchor, h: Anchor) returns (v: Verdict)
    ensures Judged(diff, b, h, v)
  {
    var target := TargetOf(b);
    v := Verdict(h.doc, h.line, target, Shown(b), None, Correct, NoReason, h.continuation);
    if h.target != b.target {
      v := v.(kind := NotCompared, reason := OtherTarget);
      return;
    }
    if target in diff.renames {
      v := v.(kind := Ambiguous, reason := Renamed(diff.renames[target]));
      return;
    }
    if target in diff.deleted {
      v := v.(kind := Ambiguous, reason := Deleted);
      return;
    }
    if target !in diff.files || diff.files[target] == [] {
      v := v.(kind := Unchanged);
      return;
    }
    var hunks := diff.files[target];
    var mappedStart := OldToNew(hunks, b.start);
    var mappedEnd := if b.end.Some? then OldToNew(hunks, b.end.value) else None;
    if mappedStart.None? || (b.end.Some? && mappedEnd.None?) {
      v := v.(kind := Ambiguous, reason := LineRemoved);
      assert Cites(b, if mappedStart.None? then b.start else b.end.value);
      return;
    }
    v := v.(new_ := Some(Extent(mappedStart.value, mappedEnd)));
    if (mappedStart.value, mappedEnd) == (h.start, if h.end.None? then None else Some(h.end.value as int)) {
      v := v.(kind := Correct, reason := AlreadyRepointed);
      return;
    }
    v := v.(kind := Stale, reason := Moved);
    if exists k :: k in hunks && k.Touches(b.start, if b.end.Some? then b.end.value else b.start) {
      v := v.(reason := RangeResized);
    }
  }

  // ---- The report --------------------------------------------------------------------

  /** A base anchor without a partner: its doc line changed beyond the numbers. */
  function LeftOver(doc: string, b: Anchor): Verdict {
    Verdict(doc, b.line, TargetOf(b), Shown(b), None, NotCompared, LineRewritten, b.continuation)
  }

  /** One document of the base revision, and what the head side says about it. */
  datatype Document = Document(name: string, sides: Sides, atHead: bool, frozen: bool, excluded: bool) {

    predicate Skipped() {
      !atHead || frozen || excluded
    }

    /** Both sides, without the anchors that take no part. */
    function Live(): Sides {
      Sides(Filter(sides.base, LiveAnchor()), Filter(sides.head, LiveAnchor()), sides.baseKey, sides.headKey)
    }
  }

  function LiveAnchor(): Cited -> bool {
    (c: Cited) => IsLive(c.anchor)
  }

  /** The verdicts of a compared document: one per pair, then one per base anchor left over. */
  ghost predicate VerdictsOf(diff: DiffMap, d: Document, pairs: seq<(Cited, Cited)>, unpaired: seq<Cited>, vs: seq<Verdict>) {
    && NoDuplicates(pairs)
    && (forall b, h :: (b, h) in pairs <==> d.Live().Paired(b, h))
    && unpaired == Filter(d.Live().base, d.Live().Alone())
    && |vs| == |pairs| + |unpaired|
    && (forall i :: 0 <= i < |pairs| ==> Judged(diff, pairs[i].0.anchor, pairs[i].1.anchor, vs[i]))
    && (forall i :: 0 <= i < |unpaired| ==> vs[|pairs| + i] == LeftOver(d.name, unpaired[i].anchor))
  }

  ghost predicate PairVerdicts(diff: DiffMap, pairs: seq<(Cited, Cited)>, vs: seq<Verdict>) {
    |vs| == |pairs| && forall i :: 0 <= i < |pairs| ==> Judged(diff, pairs[i].0.anchor, pairs[i].1.anchor, vs[i])
  }

  function LeftOvers(doc: string, unpaired: seq<Cited>): (vs: seq<Verdict>)
    ensures |vs| == |unpaired|
  {
    seq(|unpaired|, i requires 0 <= i < |unpaired| => LeftOver(doc, unpaired[i].anchor))
  }

  lemma Behind(before: seq<Verdict>, judged: seq<Verdict>, left: seq<Verdict>)
    ensures before + judged + left == before + (judged + left)
    ensures before <= before + judged + left && (before + judged + left)[|before|..] == judged + left
  {
  }

  lemma AllVerdicts(
    diff: DiffMap, d: Document, pairs: seq<(Cited, Cited)>, unpaired: seq<Cited>, judged: seq<Verdict>)
    requires !d.Skipped() && NoDuplicates(pairs) && unpaired == Filter(d.Live().base, d.Live().Alone())
    requires forall b, h :: (b, h) in pairs <==> d.Live().Paired(b, h)
    requires PairVerdicts(diff, pairs, judged)
    ensures DocumentVerdicts(diff, d, judged + LeftOvers(d.name, unpaired))
  {
    hide Judged;
    hide Filter;
    assert VerdictsOf(diff, d, pairs, unpaired, judged + LeftOvers(d.name, unpaired));
  }

  ghost predicate DocumentVerdicts(diff: DiffMap, d: Document, vs: seq<Verdict>) {
    if d.Skipped() then vs == []
    else exists pairs, unpaired :: VerdictsOf(diff, d, pairs, unpaired, vs)
  }

  class DriftReport {
    var verdicts: seq<Verdict>

    constructor ()
      ensures verdicts == []
    {
      verdicts := [];
    }

    predicate Has(kind: Kind)
      reads this
    {
      exists v :: v in verdicts && v.kind == kind
    }

    /** The exit code. */
    function Worst(strict: bool): (code: int)
      reads this
      ensures code == 1 <==> exists v :: v in verdicts && (v.kind == Stale || (strict && v.kind == Ambiguous))
      ensures code != 1 ==> code == 0
    {
      if Has(Stale) then 1 else if strict && Has(Ambiguous) then 1 else 0
    }

    /** Judge one document and append its verdicts. */
    method AddDocument(diff: DiffMap, d: Document)
      requires d.sides.Valid()
      modifies this
      ensures old(verdicts) <= verdicts
      ensures DocumentVerdicts(diff, d, verdicts[|old(verdicts)|..])
    {
      if d.Skipped() {
        return;
      }
      FilteredStaysDistinct(d.sides.base, LiveAnchor());
      FilteredStaysDistinct(d.sides.head, LiveAnchor());
      hide *;
      var pairs, unpaired := Pair(d.Live());
      ghost var judged := AddPairs(diff, pairs);
      AddLeftOvers(d.name, unpaired);
      AllVerdicts(diff, d, pairs, unpaired, judged);
      Behind(old(verdicts), judged, LeftOvers(d.name, unpaired));
    }

    method AddPairs(diff: DiffMap, pairs: seq<(Cited, Cited)>) returns (ghost judged: seq<Verdict>)
      modifies this
      ensures verdicts == old(verdicts) + judged && PairVerdicts(diff, pairs, judged)
    {
      hide Judged;
      judged := [];
      for i := 0 to |pairs|
        invariant verdicts == old(verdicts) + judged && |judged| == i
        invariant forall k :: 0 <= k < i ==> Judged(diff, pairs[k].0.anchor, pairs[k].1.anchor, judged[k])
      {
        var v := Judge(diff, pairs[i].0.anchor, pairs[i].1.anchor);
        verdicts := verdicts + [v];
        judged := judged + [v];
      }
    }

    method AddLeftOvers(doc: string, unpaired: seq<Cited>)
      modifies this
      ensures verdicts == old(verdicts) + LeftOvers(doc, unpaired)
    {
      for i := 0 to |unpaired|
        invariant verdicts == old(verdicts) + LeftOvers(doc, unpaired)[..i]
      {
        verdicts := verdicts + [LeftOver(doc, unpaired[i].anchor)];
      }
    }
  }

  ghost function Flatten(parts: seq<seq<Verdict>>): seq<Verdict> {
    if parts == [] then [] else Flatten(parts[..|parts| - 1]) + parts[|parts| - 1]
  }

  /** One verdict list per document of the base revision, in order. */
  ghost predicate IsReport(diff: DiffMap, docs: seq<Document>, parts: seq<seq<Verdict>>, verdicts: seq<Verdict>) {
    && |parts| == |docs| && Flatten(parts) == verdicts
    && forall i :: 0 <= i < |docs| ==> DocumentVerdicts(diff, docs[i], parts[i])
  }

  lemma OneMoreDocument(diff: DiffMap, docs: seq<Document>, i: nat, parts: seq<seq<Verdict>>, verdicts: seq<Verdict>, part: seq<Verdict>)
    requires i < |docs| && IsReport(diff, docs[..i], parts, verdicts) && DocumentVerdicts(diff, docs[i], part)
    ensures IsReport(diff, docs[..i + 1], parts + [part], verdicts + part)
  {
    hide DocumentVerdicts;
    assert (parts + [part])[..i] == parts;
    assert docs[..i + 1] == docs[..i] + [docs[i]];
  }

  method Check(diff: DiffMap, docs: seq<Document>) returns (report: DriftReport, ghost parts: seq<seq<Verdict>>)
    requires forall d :: d in docs ==> d.sides.Valid()
    ensures fresh(report)
    ensures IsReport(diff, docs, parts, Flatten(parts)) && report.verdicts == Sorted(Flatten(parts))
  {
    report := new DriftReport();
    parts := [];
    hide DocumentVerdicts;
    assert IsReport(diff, docs[..0], parts, report.verdicts);
    hide IsReport;
    for i := 0 to |docs|
      invariant fresh(report)
      invariant IsReport(diff, docs[..i], parts, report.verdicts)
    {
      ghost var before := report.verdicts;
      report.AddDocument(diff, docs[i]);
      ghost var part := report.verdicts[|before|..];
      assert report.verdicts == before + part;
      OneMoreDocument(diff, docs, i, parts, before, part);
      parts := parts + [part];
    }
    assert docs[..|docs|] == docs;
    ReportIsFlat(diff, docs, parts, report.verdicts);
    report.verdicts := Sorted(report.verdicts);
  }

  lemma ReportIsFlat(diff: DiffMap, docs: seq<Document>, parts: seq<seq<Verdict>>, verdicts: seq<Verdict>)
    requires IsReport(diff, docs, parts, verdicts)
    ensures verdicts == Flatten(parts)
  {
  }

  // ---- The order of the report --------------------------------------------------------

  predicate NotAfter(v: Verdict, w: Verdict) {
    Before(v.doc, w.doc) || (v.doc == w.doc && v.line <= w.line)
  }

  function Insert(v: Verdict, vs: seq<Verdict>): seq<Verdict> {
    if vs == [] || NotAfter(vs[|vs| - 1], v) then vs + [v]
    else Insert(v, vs[..|vs| - 1]) + [vs[|vs| - 1]]
  }

  /** By document and line; verdicts of one line stay as they were found. */
  function Sorted(vs: seq<Verdict>): seq<Verdict> {
    if vs == [] then [] else Insert(vs[|vs| - 1], Sorted(vs[..|vs| - 1]))
  }

  ghost predicate InOrderOfLines(vs: seq<Verdict>) {
    forall i, j :: 0 <= i < j < |vs| ==> NotAfter(vs[i], vs[j])
  }

  function OnLineOf(doc: string, line: nat): Verdict -> bool {
    (v: Verdict) => v.doc == doc && v.line == line
  }

  lemma NotAfterIsTransitive(u: Verdict, v: Verdict, w: Verdict)
    requires NotAfter(u, v) && NotAfter(v, w)
    ensures NotAfter(u, w)
  {
    if Before(u.doc, v.doc) && Before(v.doc, w.doc) {
      BeforeIsTransitive(u.doc, v.doc, w.doc);
    }
  }

  lemma {:induction false} InsertAdds(v: Verdict, vs: seq<Verdict>)
    ensures multiset(Insert(v, vs)) == multiset(vs) + multiset{v}
  {
    hide NotAfter;
    if vs != [] && !NotAfter(vs[|vs| - 1], v) {
      assert vs == vs[..|vs| - 1] + [vs[|vs| - 1]];
      InsertAdds(v, vs[..|vs| - 1]);
    }
  }

  lemma {:induction false} InsertKeepsOrder(v: Verdict, vs: seq<Verdict>)
    requires InOrderOfLines(vs)
    ensures InOrderOfLines(Insert(v, vs))
  {
    hide NotAfter;
    if vs != [] && !NotAfter(vs[|vs| - 1], v) {
      var init, last := vs[..|vs| - 1], vs[|vs| - 1];
      InsertKeepsOrder(v, init);
      InsertAdds(v, init);
      var front := Insert(v, init);
      NotAfterIsTotal(v, last);
      forall i | 0 <= i < |front| ensures NotAfter(front[i], last) {
        assert front[i] in multiset(front);
        assert front[i] in init || front[i] == v;
      }
    } else {
      forall i | 0 <= i < |vs| ensures NotAfter(vs[i], v) {
        if i < |vs| - 1 {
          NotAfterIsTransitive(vs[i], vs[|vs| - 1], v);
        }
      }
    }
  }

  lemma NotAfterIsTotal(v: Verdict, w: Verdict)
    ensures NotAfter(v, w) || NotAfter(w, v)
  {
    BeforeIsTotal(v.doc, w.doc);
  }

  /** The verdicts of any one line keep their order: what is moved in front of another belongs to another line. */
  lemma {:induction false} InsertIsStable(v: Verdict, vs: seq<Verdict>, doc: string, line: nat)
    ensures Filter(Insert(v, vs), OnLineOf(doc, line)) == Filter(vs + [v], OnLineOf(doc, line))
  {
    hide NotAfter;
    var on := OnLineOf(doc, line);
    if vs != [] && !NotAfter(vs[|vs| - 1], v) {
      var init, last := vs[..|vs| - 1], vs[|vs| - 1];
      assert vs == init + [last];
      InsertIsStable(v, init, doc, line);
      FilterAppend(Insert(v, init), [last], on);
      FilterAppend(init, [v], on);
      FilterAppend(init, [last], on);
      FilterAppend(vs, [v], on);
      SameLineIsNotAfter(last, v);
      assert Filter([v], on) + Filter([last], on) == Filter([last], on) + Filter([v], on);
    }
  }

  lemma SameLineIsNotAfter(v: Verdict, w: Verdict)
    ensures v.doc == w.doc && v.line == w.line ==> NotAfter(v, w)
  {
  }

  /** The report is in order, holds what was found, and keeps the order of the verdicts of each line. */
  lemma {:induction false} SortedIsInOrder(vs: seq<Verdict>)
    ensures InOrderOfLines(Sorted(vs)) && multiset(Sorted(vs)) == multiset(vs)
    ensures forall doc, line: nat :: Filter(Sorted(vs), OnLineOf(doc, line)) == Filter(vs, OnLineOf(doc, line))
  {
    hide NotAfter;
    hide Insert;
    if vs != [] {
      var init, last := vs[..|vs| - 1], vs[|vs| - 1];
      assert vs == init + [last];
      SortedIsInOrder(init);
      InsertKeepsOrder(last, Sorted(init));
      InsertAdds(last, Sorted(init));
      forall doc, line: nat ensures Filter(Sorted(vs), OnLineOf(doc, line)) == Filter(vs, OnLineOf(doc, line)) {
        InsertIsStable(last, Sorted(init), doc, line);
        FilterAppend(Sorted(init), [last], OnLineOf(doc, line));
        FilterAppend(init, [last], OnLineOf(doc, line));
      }
    }
  }

  // ---- What the verdicts and the exit code mean --------------------------------------

  /** The cited lines exist, in order: what rule B of the anchor checker leaves, line 0 aside. */
  ghost predicate InFile<T>(file: seq<T>, a: Anchor)
    ensures InFile(file, a) ==> 1 <= a.start <= |file|
  {
    1 <= a.start <= (if a.end.Some? then a.end.value else a.start) <= |file|
  }

  /** The numbers of `e` name lines of `text` that hold what `a`'s numbers named in `file`. */
  ghost predicate PointsAtSameText<T>(file: seq<T>, text: seq<T>, a: Anchor, e: Extent)
    requires InFile(file, a)
  {
    && e.last.Some? == a.end.Some?
    && 1 <= e.first <= |text| && text[e.first - 1] == file[a.start - 1]
    && (a.end.Some? ==> e.first <= e.last.value <= |text| && text[e.last.value - 1] == file[a.end.value - 1])
  }

  /** The file an anchor resolved to. */
  predicate Names(a: Anchor, file: string) {
    a.target == Some(file) && file != ""
  }

  /** The verdict is about the file the anchor resolved to, however its path is written. */
  lemma JudgedByTarget(diff: DiffMap, b: Anchor, h: Anchor, v: Verdict, file: string)
    requires Judged(diff, b, h, v) && Names(b, file) && Names(h, file)
    ensures v.target == file
    ensures v.kind == Unchanged <==>
      file !in diff.renames && file !in diff.deleted && (file !in diff.files || diff.files[file] == [])
    ensures v.kind == Ambiguous <==>
      || file in diff.renames || file in diff.deleted
      || (file in diff.files && (OldToNew(diff.files[file], b.start).None? || (b.end.Some? && OldToNew(diff.files[file], b.end.value).None?)))
    ensures v.kind == Correct <==>
      && file !in diff.renames && file !in diff.deleted && file in diff.files && diff.files[file] != []
      && b.end.Some? == h.end.Some?
      && OldToNew(diff.files[file], b.start) == Some(h.start)
      && (b.end.Some? ==> OldToNew(diff.files[file], b.end.value) == Some(h.end.value))
    ensures v.kind != NotCompared
  {
    var hunks := if file in diff.files then diff.files[file] else [];
    assert CitesRemoved(hunks, b) <==> OldToNew(hunks, b.start).None? || (b.end.Some? && OldToNew(hunks, b.end.value).None?) by {
      assert Cites(b, b.start) && (b.end.Some? ==> Cites(b, b.end.value));
    }
    if hunks == [] {
      NothingMoves(b.start);
      NothingMoves(if b.end.Some? then b.end.value else 0);
    }
  }

  lemma NothingMoves(line: int)
    ensures OldToNew([], line) == Some(line)
  {
  }

  /**
    Verdict soundness, in terms of the text: for an anchor into a changed file, `ambiguous`
    says an edit removed a cited line; otherwise the mapped numbers name the same text in
    the new file, `correct` says the head carries them and `stale` that it does not.
   */
  lemma VerdictIsSound<T>(
    file: seq<T>, edits: seq<Edit<T>>, diff: DiffMap, b: Anchor, h: Anchor, v: Verdict, path: string)
    requires Judged(diff, b, h, v) && InFile(file, b)
    requires Names(b, path) && Names(h, path) && path !in diff.renames && path !in diff.deleted
    requires path in diff.files && diff.files[path] != [] && DiffOf(file, edits, diff.files[path])
    ensures v.kind == Ambiguous <==> exists l, e :: Cites(b, l) && e in edits && e.before < l <= e.After()
    ensures v.kind != Ambiguous ==> v.new_.Some? && PointsAtSameText(file, Apply(file, edits, 0), b, v.new_.value)
    ensures v.kind == Correct ==> PointsAtSameText(file, Apply(file, edits, 0), b, Shown(h))
    ensures v.kind == Stale ==> Shown(h) != v.new_.value
  {
    var hunks := diff.files[path];
    forall l | Cites(b, l) ensures OldToNew(hunks, l).None? <==> exists e :: e in edits && e.before < l <= e.After() {
      RemovedIffNoImage(file, edits, hunks, l);
    }
    if v.kind != Ambiguous {
      assert Cites(b, b.start) && OldToNew(hunks, b.start).Some?;
      ImageKeepsText(file, edits, hunks, b.start);
      if b.end.Some? {
        assert Cites(b, b.end.value) && OldToNew(hunks, b.end.value).Some?;
        ImageKeepsText(file, edits, hunks, b.end.value);
        RangeStaysForward(file, edits, hunks, b.start, b.end.value);
      }
    }
  }

  /** The detail "a cited range grew or shrank" is given exactly when a hunk removed a cited line. */
  lemma TouchesIffRemovesWithin(hunk: Hunk, lo: int, hi: int)
    requires lo <= hi
    ensures hunk.Touches(lo, hi) <==> exists l :: lo <= l <= hi && hunk.Removes(l)
  {
    if hunk.Touches(lo, hi) {
      assert hunk.Removes(if hunk.oldStart <= lo then lo else hunk.oldStart);
    }
  }

  /** Every live base anchor of a compared document gets exactly one verdict. */
  lemma OneVerdictPerAnchor(diff: DiffMap, d: Document, vs: seq<Verdict>)
    requires d.sides.Valid() && DocumentVerdicts(diff, d, vs) && !d.Skipped()
    ensures |vs| == |d.Live().base|
  {
    FilteredStaysDistinct(d.sides.base, LiveAnchor());
    FilteredStaysDistinct(d.sides.head, LiveAnchor());
    var pairs, unpaired :| VerdictsOf(diff, d, pairs, unpaired, vs);
    PairsAndLeftoversAreTheBase(d.Live(), pairs, unpaired);
  }

  lemma {:induction false} PartIsInReport(parts: seq<seq<Verdict>>, i: nat, v: Verdict)
    requires i < |parts| && v in parts[i]
    ensures v in Flatten(parts)
  {
    if i < |parts| - 1 {
      assert parts[..|parts| - 1][i] == parts[i];
      PartIsInReport(parts[..|parts| - 1], i, v);
    }
  }

  /** The verdict on every pair of a compared document is in the report. */
  lemma PairHasVerdict(
    diff: DiffMap, docs: seq<Document>, parts: seq<seq<Verdict>>, verdicts: seq<Verdict>, i: nat, b: Cited, h: Cited)
    returns (v: Verdict)
    requires IsReport(diff, docs, parts, Flatten(parts)) && verdicts == Sorted(Flatten(parts))
    requires i < |docs| && !docs[i].Skipped() && docs[i].Live().Paired(b, h)
    ensures v in verdicts && Judged(diff, b.anchor, h.anchor, v)
  {
    hide Judged;
    var pairs, unpaired :| VerdictsOf(diff, docs[i], pairs, unpaired, parts[i]);
    assert (b, h) in pairs;
    var k :| 0 <= k < |pairs| && pairs[k] == (b, h);
    v := parts[i][k];
    PartIsInReport(parts, i, v);
    SortedIsInOrder(Flatten(parts));
    assert v in multiset(verdicts);
  }

  /**
    The gate: if the strict run is green, then every pair of anchors the documents still
    share, into a file that was changed in place, cites the same text before and after, where
    the hunks start from the very file the anchors were read from.
   */
  lemma GreenMeansSameText<T>(
    file: seq<T>, edits: seq<Edit<T>>, diff: DiffMap, docs: seq<Document>, parts: seq<seq<Verdict>>, verdicts: seq<Verdict>,
    i: nat, b: Cited, h: Cited, path: string)
    requires IsReport(diff, docs, parts, Flatten(parts)) && verdicts == Sorted(Flatten(parts))
    requires forall v :: v in verdicts ==> v.kind != Stale && v.kind != Ambiguous
    requires i < |docs| && !docs[i].Skipped() && docs[i].Live().Paired(b, h)
    requires InFile(file, b.anchor) && Names(b.anchor, path) && Names(h.anchor, path)
    requires path in diff.files && diff.files[path] != [] && DiffOf(file, edits, diff.files[path])
    ensures PointsAtSameText(file, Apply(file, edits, 0), b.anchor, Shown(h.anchor))
  {
    var v := PairHasVerdict(diff, docs, parts, verdicts, i, b, h);
    JudgedByTarget(diff, b.anchor, h.anchor, v, path);
    VerdictIsSound(file, edits, diff, b.anchor, h.anchor, v, path);
  }

  /**
    A changed file that git shows under a quoted path is looked up in vain: whatever its
    hunks remove or move, an anchor into it counts as unchanged.
   */
  lemma QuotedFileIsNotSeen(
    title: string, headers: seq<string>, old_: string, new_: string, trailer: string, hunks: seq<Printed>,
    b: Anchor, h: Anchor, v: Verdict, file: string)
    requires (forall i :: 0 <= i < |headers| ==> IsInert(headers[i])) && IsTrailer(trailer) && PlainHunks(hunks)
    requires Judged(ReadAll(Nothing, PrintQuoted(title, headers, old_, new_, trailer, hunks)).diff, b, h, v)
    requires Names(b, file) && Names(h, file) && file[0] != '"'
    ensures v.kind == Unchanged
  {
    QuotedPathIsTheKey(Nothing, title, headers, old_, new_, trailer, hunks);
    assert Quoted("b/", new_)[0] == '"';
    hide PrintQuoted;
    hide ReadAll;
    assert file !in ReadAll(Nothing, PrintQuoted(title, headers, old_, new_, trailer, hunks)).diff.files;
  }

  // ---- What is compared at all ---------------------------------------------------------------------------------------

  /** A document is compared if it is still there, not frozen, and not excluded on the head side; of it, the anchors that are live. */
  lemma ComparedIff(diff: DiffMap, d: Document, vs: seq<Verdict>)
    ensures !d.atHead || d.frozen || d.excluded ==> (DocumentVerdicts(diff, d, vs) <==> vs == [])
    ensures d.atHead && !d.frozen && !d.excluded ==>
      (DocumentVerdicts(diff, d, vs) <==> exists pairs, unpaired :: VerdictsOf(diff, d, pairs, unpaired, vs))
    ensures forall c :: c in d.Live().base <==> c in d.sides.base && IsLive(c.anchor)
    ensures forall c :: c in d.Live().head <==> c in d.sides.head && IsLive(c.anchor)
  {
    FilterIn(d.sides.base, LiveAnchor());
    FilterIn(d.sides.head, LiveAnchor());
  }

  /** An anchor without a partner is reported on its own line, with its own numbers, and fails nothing. */
  lemma LeftOverIs(doc: string, b: Anchor)
    ensures var v := LeftOver(doc, b);
      && v.doc == doc && v.line == b.line && v.kind == NotCompared && v.new_.None? && v.reason == LineRewritten
      && v.old_ == Extent(b.start, if b.end.Some? then Some(b.end.value) else None) && v.continuation == b.continuation
      && (b.target.Some? && b.target.value != "" ==> v.target == b.target.value)
  {
  }

  lemma NotAfterIff(v: Verdict, w: Verdict)
    ensures NotAfter(v, w) <==> Before(v.doc, w.doc) || (v.doc == w.doc && v.line <= w.line)
  {
  }
}
