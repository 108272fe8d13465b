/**
  The two base files of `scripts/check_anchor_drift.py`: the anchors are read from the file of
  the revision that is named, the hunks start from the file of the merge base. What a verdict
  says where the two differ.
 */
module MergeBase {
  import opened Common
  import opened Anchors
  import opened DiffText
  import opened Drift
  import opened LineMap
  import opened Pairing

  /** What the anchor cites stands in both files, in the same places. */
  ghost predicate SameCited<T>(rev: seq<T>, base: seq<T>, a: Anchor)
    requires InFile(rev, a)
  {
    && InFile(base, a) && rev[a.start - 1] == base[a.start - 1]
    && (a.end.Some? ==> rev[a.end.value - 1] == base[a.end.value - 1])
  }

  /** A line behind the end of the old file is mapped behind the end of the new one. */
  lemma {:induction false} MappedBehindEnd<T>(edits: seq<Edit<T>>, k: nat, at: nat, newAt: nat, n: nat, line: int)
    requires InOrder(edits, at, n) && n < line
    ensures OldToNew(Hunks(edits, at, newAt, n), line) == Some(at + |Origins(edits, k, at, n)| + line - n)
    decreases edits
  {
    OriginsLength(edits, k, at, n);
    if edits != [] {
      var e := edits[0];
      EditsEndWithin(edits, at, n);
      HunksStep(edits, at, newAt, n, line);
      hide Hunks;
      hide OldToNew;
      hide Origins;
      MappedBehindEnd(edits[1..], k + 1, e.After(), newAt + e.before - at + |e.added|, n, line);
    }
  }

  lemma EditsEndWithin<T>(edits: seq<Edit<T>>, at: nat, n: nat)
    requires InOrder(edits, at, n) && edits != []
    ensures at <= edits[0].before && edits[0].After() <= n
  {
  }

  lemma BehindEnd<T>(base: seq<T>, edits: seq<Edit<T>>, hunks: seq<Hunk>, line: int)
    requires DiffOf(base, edits, hunks) && |base| < line && OldToNew(hunks, line).Some?
    ensures OldToNew(hunks, line).value > |Apply(base, edits, 0)|
  {
    MappedBehindEnd(edits, 0, 0, 0, |base|, line);
    OriginsCarryLength(base, edits, 0, 0);
  }

  /**
    The exact reach of a mapped extent: its numbers name the text the anchor cited if and only
    if the cited lines stand in both files, in the same places.
   */
  lemma MappedIffSameCited<T>(rev: seq<T>, base: seq<T>, edits: seq<Edit<T>>, hunks: seq<Hunk>, b: Anchor, e: Extent)
    requires InFile(rev, b) && DiffOf(base, edits, hunks) && MappedTo(hunks, b, e)
    ensures PointsAtSameText(rev, Apply(base, edits, 0), b, e) <==> SameCited(rev, base, b)
  {
    var text, last := Apply(base, edits, 0), if b.end.Some? then b.end.value else b.start;
    if last > |base| {
      BehindEnd(base, edits, hunks, last);
    } else {
      ImageKeepsText(base, edits, hunks, b.start);
      ImageKeepsText(base, edits, hunks, last);
      RangeStaysForward(base, edits, hunks, b.start, last);
    }
  }

  /** A verdict that is not ambiguous: whether the numbers it names are right, and for a correct one those of the head. */
  lemma VerdictIffSameCited<T>(
    rev: seq<T>, base: seq<T>, edits: seq<Edit<T>>, diff: DiffMap, b: Anchor, h: Anchor, v: Verdict, path: string)
    requires Judged(diff, b, h, v) && v.kind in {Correct, Stale} && InFile(rev, b)
    requires Names(b, path) && path in diff.files && DiffOf(base, edits, diff.files[path])
    ensures PointsAtSameText(rev, Apply(base, edits, 0), b, v.new_.value) <==> SameCited(rev, base, b)
    ensures v.kind == Correct ==> (PointsAtSameText(rev, Apply(base, edits, 0), b, Shown(h)) <==> SameCited(rev, base, b))
  {
    MappedIffSameCited(rev, base, edits, diff.files[path], b, v.new_.value);
  }

  /**
    What a green strict run says: a pair of anchors into a file that was changed in place
    cites the same text before and after if and only if the merge base has the cited lines
    where the revision has them.
   */
  lemma GreenIffSameCited<T>(
    rev: seq<T>, base: seq<T>, edits: seq<Edit<T>>, diff: DiffMap,
    docs: seq<Document>, parts: seq<seq<Verdict>>, verdicts: seq<Verdict>, i: nat, b: Cited, h: Cited, path: string)
    requires IsReport(diff, docs, parts, Flatten(parts)) && verdicts == Sorted(Flatten(parts))
    requires forall v :: v in verdicts ==> v.kind != Stale && v.kind != Ambiguous
    requires i < |docs| && !docs[i].Skipped() && docs[i].Live().Paired(b, h)
    requires InFile(rev, b.anchor) && Names(b.anchor, path) && Names(h.anchor, path)
    requires path in diff.files && diff.files[path] != [] && DiffOf(base, edits, diff.files[path])
    ensures PointsAtSameText(rev, Apply(base, edits, 0), b.anchor, Shown(h.anchor)) <==> SameCited(rev, base, b.anchor)
  {
    var v := PairHasVerdict(diff, docs, parts, verdicts, i, b, h);
    hide PointsAtSameText;
    hide SameCited;
    JudgedByTarget(diff, b.anchor, h.anchor, v, path);
    VerdictIffSameCited(rev, base, edits, diff, b.anchor, h.anchor, v, path);
  }

  // ---- A correct verdict on a citation that changed its text --------------------------------------------

  const BaseFile: seq<string> := ["p", "q"]
  const RevFile: seq<string> := ["p", "z"]
  const OneInFront: seq<Edit<string>> := [Edit(0, 0, ["n"])]
  const OneHunk: seq<Hunk> := [Hunk(0, 0, 1, 1)]

  function Cite(line: nat): Anchor {
    Anchor("doc", 1, "file", line, None, Some("file"), None, false, Ok, "")
  }

  /**
    The branch puts a line in front, the named revision has rewritten line 2 meanwhile: moving
    the citation from 2 to 3 is correct, and cites another text.
   */
  lemma MergeBaseMisleads(v: Verdict)
    requires Judged(DiffMap(map["file" := OneHunk], map[], {}), Cite(2), Cite(3), v)
    ensures DiffOf(BaseFile, OneInFront, OneHunk) && InFile(RevFile, Cite(2)) && v.kind == Correct
    ensures !PointsAtSameText(RevFile, Apply(BaseFile, OneInFront, 0), Cite(2), Shown(Cite(3)))
  {
    OneInFrontPrints();
    assert Shift(OneHunk, 2) == 1 by {
      assert Shift([], 2) == 0 && OneHunk[1..] == [];
    }
    assert OldToNew(OneHunk, 2) == Some(3);
    assert MappedTo(OneHunk, Cite(2), Extent(3, None));
    MappedIffSameCited(RevFile, BaseFile, OneInFront, OneHunk, Cite(2), Extent(3, None));
  }

  lemma OneInFrontPrints()
    ensures DiffOf(BaseFile, OneInFront, OneHunk)
  {
    OneEdit(BaseFile, OneInFront[0]);
  }

  /** The hunk of a single insertion in front. */
  lemma OneEdit<T>(file: seq<T>, e: Edit<T>)
    requires e.before == 0 && e.removed == 0 && |e.added| == 1
    ensures DiffOf(file, [e], [Hunk(0, 0, 1, 1)])
  {
    assert [e][1..] == [] && InOrder<T>([], 0, |file|);
    assert InOrder([e], 0, |file|);
    assert Hunks<T>([], 0, 1, |file|) == [];
    hide InOrder;
    assert Hunks([e], 0, 0, |file|) == [HunkOf(e, 0)] + [];
  }
}
