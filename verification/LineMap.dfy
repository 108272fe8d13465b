/**
  The old-to-new line map of `scripts/check_anchor_drift.py`: a sum of hunk deltas on one
  side, and the effect of actually editing a sequence of lines on the other.
 */
module LineMap {
  import opened Common

  // ---- What the program computes -------------------------------------------------

  /** A hunk header without context: where each side starts, and how many lines it has. */
  datatype Hunk = Hunk(oldStart: nat, oldCount: nat, newStart: nat, newCount: nat) {

    function Delta(): int {
      newCount - oldCount
    }

    /** From this old line on, numbers move by the delta. */
    function FirstShiftedOld(): nat {
      oldStart + if oldCount > 1 then oldCount else 1
    }

    predicate Removes(line: int) {
      oldCount > 0 && oldStart <= line < oldStart + oldCount
    }

    predicate Touches(lo: int, hi: int) {
      oldCount != 0 && oldStart <= hi && oldStart + oldCount - 1 >= lo
    }
  }

  /** By how much the hunks in front of `line` move it. */
  function Shift(hunks: seq<Hunk>, line: int): int {
    if hunks == [] then 0
    else (if hunks[0].FirstShiftedOld() <= line then hunks[0].Delta() else 0) + Shift(hunks[1..], line)
  }

  /** The new number of an old line that is still there. */
  function OldToNew(hunks: seq<Hunk>, line: int): Option<int> {
    if exists h :: h in hunks && h.Removes(line) then None else Some(line + Shift(hunks, line))
  }

  // ---- What it should mean: editing a sequence of lines ----------------------------

  /** Replace the `removed` lines that follow the first `before` old lines by `added`. */
  datatype Edit<T> = Edit(before: nat, removed: nat, added: seq<T>) {
    function After(): nat { before + removed }
  }

  /** The edits lie in order, without overlap, in lines `at..n` (0-based) of an `n`-line file. */
  ghost predicate InOrder<T>(edits: seq<Edit<T>>, at: nat, n: nat)
    ensures InOrder(edits, at, n) ==> at <= n
  {
    if edits == [] then at <= n
    else at <= edits[0].before && InOrder(edits[1..], edits[0].After(), n)
  }

  /** The edited text from old line `at` (0-based) on. */
  ghost function Apply<T>(file: seq<T>, edits: seq<Edit<T>>, at: nat): seq<T>
    requires InOrder(edits, at, |file|)
    decreases edits
  {
    if edits == [] then file[at..]
    else file[at..edits[0].before] + edits[0].added + Apply(file, edits[1..], edits[0].After())
  }

  /** The hunk header of one edit, `newBefore` new lines precede it. */
  ghost function HunkOf<T>(e: Edit<T>, newBefore: nat): Hunk {
    Hunk(e.before + if e.removed > 0 then 1 else 0, e.removed, newBefore + if |e.added| > 0 then 1 else 0, |e.added|)
  }

  /**
    The hunk headers a zero-context unified diff prints for the edits (POSIX.1-2017 `diff`,
    "Diff -u or -U Output Format"): a side without lines is placed by the line before it.
    `newAt` new lines precede old line `at`.
   */
  ghost function Hunks<T>(edits: seq<Edit<T>>, at: nat, newAt: nat, n: nat): (hunks: seq<Hunk>)
    requires InOrder(edits, at, n)
    ensures |hunks| == |edits|
    decreases edits
  {
    if edits == [] then []
    else
      var e := edits[0];
      var newBefore := newAt + e.before - at;
      [HunkOf(e, newBefore)] + Hunks(edits[1..], e.After(), newBefore + |e.added|, n)
  }

  /** Where a line of the new file comes from. */
  datatype Origin = Kept(line: int) | Added(hunk: nat, index: nat)

  ghost function KeptLines(lo: nat, hi: nat): (lines: seq<Origin>)
    requires lo <= hi
    ensures |lines| == hi - lo
  {
    seq(hi - lo, (i: nat) => Kept(lo + i + 1))
  }

  ghost function AddedLines(k: nat, count: nat): (lines: seq<Origin>)
    ensures |lines| == count
  {
    seq(count, (i: nat) => Added(k, i))
  }

  /** Line by line, where the edited text from old line `at` on comes from; `k` numbers the first edit. */
  ghost function Origins<T>(edits: seq<Edit<T>>, k: nat, at: nat, n: nat): seq<Origin>
    requires InOrder(edits, at, n)
    decreases edits
  {
    if edits == [] then KeptLines(at, n)
    else KeptLines(at, edits[0].before) + AddedLines(k, |edits[0].added|) + Origins(edits[1..], k + 1, edits[0].After(), n)
  }

  lemma OriginsAt<T>(edits: seq<Edit<T>>, k: nat, at: nat, n: nat, j: nat)
    requires InOrder(edits, at, n) && j < |Origins(edits, k, at, n)|
    ensures Origins(edits, k, at, n)[j] ==
      if edits == [] || j < edits[0].before - at then Kept(at + j + 1)
      else if j < edits[0].before - at + |edits[0].added| then Added(k, j - (edits[0].before - at))
      else Origins(edits[1..], k + 1, edits[0].After(), n)[j - (edits[0].before - at + |edits[0].added|)]
  {
  }

  lemma OriginsLength<T>(edits: seq<Edit<T>>, k: nat, at: nat, n: nat)
    requires InOrder(edits, at, n)
    ensures |Origins(edits, k, at, n)| ==
      if edits == [] then n - at
      else edits[0].before - at + |edits[0].added| + |Origins(edits[1..], k + 1, edits[0].After(), n)|
  {
  }

  ghost function Tagged<T>(edits: seq<Edit<T>>, k: nat): (tagged: seq<Edit<Origin>>)
    ensures |tagged| == |edits|
    decreases edits
  {
    if edits == [] then []
    else [Edit(edits[0].before, edits[0].removed, AddedLines(k, |edits[0].added|))] + Tagged(edits[1..], k + 1)
  }

  /** `Origins` is the edit itself, applied to a file whose lines are their own numbers. */
  lemma {:induction false} OriginsAreEdited<T>(edits: seq<Edit<T>>, k: nat, at: nat, n: nat)
    requires InOrder(edits, at, n)
    ensures InOrder(Tagged(edits, k), at, n)
    ensures Apply(KeptLines(0, n), Tagged(edits, k), at) == Origins(edits, k, at, n)
    decreases edits
  {
    if edits != [] {
      OriginsAreEdited(edits[1..], k + 1, edits[0].After(), n);
      assert Tagged(edits, k)[1..] == Tagged(edits[1..], k + 1);
      assert KeptLines(0, n)[at..edits[0].before] == KeptLines(at, edits[0].before);
    }
  }

  /** What a line of the new text is, read off its origin. */
  ghost predicate CarriesText<T>(file: seq<T>, edits: seq<Edit<T>>, k: nat, origin: Origin, text: T) {
    match origin
    case Kept(line) => 1 <= line <= |file| && text == file[line - 1]
    case Added(h, i) => k <= h < k + |edits| && i < |edits[h - k].added| && text == edits[h - k].added[i]
  }

  lemma {:induction false} OriginsCarryLength<T>(file: seq<T>, edits: seq<Edit<T>>, k: nat, at: nat)
    requires InOrder(edits, at, |file|)
    ensures |Origins(edits, k, at, |file|)| == |Apply(file, edits, at)|
    decreases edits
  {
    if edits != [] {
      OriginsCarryLength(file, edits[1..], k + 1, edits[0].After());
    }
  }

  lemma ApplyAt<T>(file: seq<T>, edits: seq<Edit<T>>, at: nat, j: nat)
    requires InOrder(edits, at, |file|) && j < |Apply(file, edits, at)|
    ensures Apply(file, edits, at)[j] ==
      if edits == [] || j < edits[0].before - at then file[at + j]
      else if j < edits[0].before - at + |edits[0].added| then edits[0].added[j - (edits[0].before - at)]
      else Apply(file, edits[1..], edits[0].After())[j - (edits[0].before - at + |edits[0].added|)]
  {
  }

  /** Each line of the new text is its origin's text. */
  lemma {:induction false} OriginsCarryText<T>(file: seq<T>, edits: seq<Edit<T>>, k: nat, at: nat, j: nat)
    requires InOrder(edits, at, |file|) && j < |Apply(file, edits, at)| == |Origins(edits, k, at, |file|)|
    ensures CarriesText(file, edits, k, Origins(edits, k, at, |file|)[j], Apply(file, edits, at)[j])
    decreases edits
  {
    OriginsAt(edits, k, at, |file|, j);
    ApplyAt(file, edits, at, j);
    if edits != [] && j >= edits[0].before - at + |edits[0].added| {
      OriginsCarryLength(file, edits[1..], k + 1, edits[0].After());
      OriginsCarryText(file, edits[1..], k + 1, edits[0].After(), j - (edits[0].before - at + |edits[0].added|));
    }
  }

  // ---- The shift arithmetic refines the edit ----------------------------------------

  lemma OldToNewStep(hunks: seq<Hunk>, line: int)
    requires hunks != []
    ensures OldToNew(hunks, line) ==
      var h, rest := hunks[0], OldToNew(hunks[1..], line);
      if h.Removes(line) || rest == None then None
      else Some(rest.value + if h.FirstShiftedOld() <= line then h.Delta() else 0)
  {
    assert forall h :: h in hunks <==> h == hunks[0] || h in hunks[1..];
  }

  /** Hunks printed for edits after the first `at` lines leave those lines where they are. */
  lemma {:induction false} HunksLeavePrefix<T>(edits: seq<Edit<T>>, at: nat, newAt: nat, n: nat, line: int)
    requires InOrder(edits, at, n) && line <= at
    ensures OldToNew(Hunks(edits, at, newAt, n), line) == Some(line)
    decreases edits
  {
    if edits != [] {
      var e := edits[0];
      var rest := Hunks(edits[1..], e.After(), newAt + e.before - at + |e.added|, n);
      HunksLeavePrefix(edits[1..], e.After(), newAt + e.before - at + |e.added|, n, line);
      OldToNewStep(Hunks(edits, at, newAt, n), line);
      assert Hunks(edits, at, newAt, n)[1..] == rest;
    }
  }

  /** One hunk of the map: unmoved before it, gone inside it, shifted behind it. */
  lemma HunksStep<T>(edits: seq<Edit<T>>, at: nat, newAt: nat, n: nat, line: int)
    requires InOrder(edits, at, n) && edits != []
    ensures var e := edits[0];
      var newNext := newAt + e.before - at + |e.added|;
      var rest := OldToNew(Hunks(edits[1..], e.After(), newNext, n), line);
      OldToNew(Hunks(edits, at, newAt, n), line) ==
        if line <= e.before then Some(line)
        else if line <= e.After() || rest == None then None
        else Some(rest.value + |e.added| - e.removed)
  {
    var e := edits[0];
    var newNext := newAt + e.before - at + |e.added|;
    var hunks := Hunks(edits, at, newAt, n);
    OldToNewStep(hunks, line);
    assert hunks[1..] == Hunks(edits[1..], e.After(), newNext, n);
    if line <= e.After() {
      HunksLeavePrefix(edits[1..], e.After(), newNext, n, line);
    }
  }

  /** Every surviving line is in the new file, at its mapped number. */
  lemma {:induction false} ImageIsKept<T>(edits: seq<Edit<T>>, k: nat, at: nat, newAt: nat, n: nat, line: int)
    requires InOrder(edits, at, n) && at < line <= n
    requires OldToNew(Hunks(edits, at, newAt, n), line).Some?
    ensures var j := OldToNew(Hunks(edits, at, newAt, n), line).value - at - 1;
      0 <= j < |Origins(edits, k, at, n)| && Origins(edits, k, at, n)[j] == Kept(line)
    decreases edits
  {
    OriginsLength(edits, k, at, n);
    if edits == [] {
      OriginsAt(edits, k, at, n, line - at - 1);
    } else {
      var e := edits[0];
      HunksStep(edits, at, newAt, n, line);
      hide Hunks;
      hide OldToNew;
      hide Origins;
      if line > e.After() {
        ImageIsKept(edits[1..], k + 1, e.After(), newAt + e.before - at + |e.added|, n, line);
      }
      OriginsAt(edits, k, at, n, OldToNew(Hunks(edits, at, newAt, n), line).value - at - 1);
    }
  }

  lemma ImageInHead<T>(edits: seq<Edit<T>>, at: nat, newAt: nat, n: nat, line: int)
    requires InOrder(edits, at, n) && (edits == [] || line <= edits[0].before)
    ensures OldToNew(Hunks(edits, at, newAt, n), line) == Some(line)
  {
    if edits != [] {
      HunksStep(edits, at, newAt, n, line);
      hide *;
    }
  }

  lemma ImageBehind<T>(edits: seq<Edit<T>>, at: nat, newAt: nat, n: nat, line: int, i: int)
    requires InOrder(edits, at, n) && edits != [] && line > edits[0].After()
    requires OldToNew(Hunks(edits[1..], edits[0].After(), newAt + edits[0].before - at + |edits[0].added|, n), line) == Some(edits[0].After() + i + 1)
    ensures OldToNew(Hunks(edits, at, newAt, n), line) == Some(edits[0].before + |edits[0].added| + i + 1)
  {
    HunksStep(edits, at, newAt, n, line);
    hide Hunks;
    hide OldToNew;
    hide InOrder;
  }

  /** Every kept line of the new file is the image of the old line it keeps. */
  lemma {:induction false} KeptIsImage<T>(edits: seq<Edit<T>>, k: nat, at: nat, newAt: nat, n: nat, j: nat)
    requires InOrder(edits, at, n) && j < |Origins(edits, k, at, n)| && Origins(edits, k, at, n)[j].Kept?
    ensures var line := Origins(edits, k, at, n)[j].line;
      at < line <= n && OldToNew(Hunks(edits, at, newAt, n), line) == Some(at + j + 1)
    decreases edits
  {
    OriginsAt(edits, k, at, n, j);
    OriginsLength(edits, k, at, n);
    hide Origins;
    hide Hunks;
    hide OldToNew;
    if edits == [] {
      ImageInHead(edits, at, newAt, n, at + j + 1);
    } else {
      var e := edits[0];
      var head := e.before - at + |e.added|;
      if j >= head {
        KeptIsImage(edits[1..], k + 1, e.After(), newAt + head, n, j - head);
        ImageBehind(edits, at, newAt, n, Origins(edits, k, at, n)[j].line, j - head);
      } else {
        ImageInHead(edits, at, newAt, n, at + j + 1);
      }
    }
  }

  lemma HunksAt<T>(edits: seq<Edit<T>>, at: nat, newAt: nat, n: nat, h: nat)
    requires InOrder(edits, at, n) && h < |edits|
    ensures var e := edits[0];
      Hunks(edits, at, newAt, n)[h] ==
        if h == 0 then HunkOf(e, newAt + e.before - at)
        else Hunks(edits[1..], e.After(), newAt + e.before - at + |e.added|, n)[h - 1]
  {
  }

  /** Added line `i` of edit `h` is in the block its hunk header counts, at place `i`. */
  ghost predicate InBlockAt(hunks: seq<Hunk>, h: int, i: nat, newLine: int) {
    0 <= h < |hunks| && i < hunks[h].newCount && newLine == hunks[h].newStart + i
  }

  lemma {:induction false} AddedIsInBlock<T>(edits: seq<Edit<T>>, k: nat, at: nat, newAt: nat, n: nat, j: nat)
    requires InOrder(edits, at, n) && j < |Origins(edits, k, at, n)| && Origins(edits, k, at, n)[j].Added?
    ensures var origin := Origins(edits, k, at, n)[j];
      InBlockAt(Hunks(edits, at, newAt, n), origin.hunk - k, origin.index, newAt + j + 1)
    decreases edits
  {
    OriginsAt(edits, k, at, n, j);
    if edits != [] {
      var e, origin := edits[0], Origins(edits, k, at, n)[j];
      var head := e.before - at + |e.added|;
      if j < head {
        HunksAt(edits, at, newAt, n, 0);
      } else {
        OriginsLength(edits, k, at, n);
        AddedIsInBlock(edits[1..], k + 1, e.After(), newAt + head, n, j - head);
        HunksAt(edits, at, newAt, n, origin.hunk - k);
      }
    }
  }

  // ---- Main results ------------------------------------------------------------------

  /** The edit script of one file and the hunks its zero-context diff prints. */
  ghost predicate DiffOf<T>(file: seq<T>, edits: seq<Edit<T>>, hunks: seq<Hunk>) {
    InOrder(edits, 0, |file|) && hunks == Hunks(edits, 0, 0, |file|)
  }

  /** A line is mapped to nothing exactly when an edit removed it. */
  lemma {:induction false} RemovedIffNoImage<T>(file: seq<T>, edits: seq<Edit<T>>, hunks: seq<Hunk>, line: int)
    requires DiffOf(file, edits, hunks)
    ensures OldToNew(hunks, line).None? <==> exists e :: e in edits && e.before < line <= e.After()
  {
    RemovedIff(edits, 0, 0, |file|, line);
  }

  lemma {:induction false} RemovedIff<T>(edits: seq<Edit<T>>, at: nat, newAt: nat, n: nat, line: int)
    requires InOrder(edits, at, n)
    ensures OldToNew(Hunks(edits, at, newAt, n), line).None? <==> exists e :: e in edits && e.before < line <= e.After()
    decreases edits
  {
    if edits != [] {
      var e, rest := edits[0], edits[1..];
      EditsStartBehind(edits, at, n);
      HunksStep(edits, at, newAt, n, line);
      hide Hunks;
      hide OldToNew;
      RemovedIff(rest, e.After(), newAt + e.before - at + |e.added|, n, line);
      hide InOrder;
      assert edits == [e] + rest;
    }
  }

  lemma {:induction false} EditsStartBehind<T>(edits: seq<Edit<T>>, at: nat, n: nat)
    requires InOrder(edits, at, n)
    ensures forall e :: e in edits ==> at <= e.before && edits[0].before <= e.before
    decreases edits
  {
    if edits != [] {
      EditsStartBehind(edits[1..], edits[0].After(), n);
      assert edits == [edits[0]] + edits[1..];
    }
  }

  /**
    The map is exactly the provenance of the edit: old line `l` maps to new line `m` if and
    only if `m` is a line of the new file and it is `l`, kept.
   */
  lemma MapIsProvenance<T>(file: seq<T>, edits: seq<Edit<T>>, hunks: seq<Hunk>, l: int, m: int)
    requires DiffOf(file, edits, hunks)
    ensures var origins := Origins(edits, 0, 0, |file|);
      (1 <= l <= |file| && OldToNew(hunks, l) == Some(m)) <==> (1 <= m <= |origins| && origins[m - 1] == Kept(l))
  {
    var origins := Origins(edits, 0, 0, |file|);
    if 1 <= l <= |file| && OldToNew(hunks, l) == Some(m) {
      ImageIsKept(edits, 0, 0, 0, |file|, l);
    }
    if 1 <= m <= |origins| && origins[m - 1].Kept? {
      KeptIsImage(edits, 0, 0, 0, |file|, m - 1);
    }
  }

  ghost predicate InAddedBlock(hunks: seq<Hunk>, m: int) {
    exists h :: h in hunks && h.newStart <= m < h.newStart + h.newCount
  }

  ghost predicate IsImage(hunks: seq<Hunk>, n: nat, m: int) {
    exists l :: 1 <= l <= n && OldToNew(hunks, l) == Some(m)
  }

  /** A mapped line is a line of the new file with the same text. */
  lemma ImageKeepsText<T>(file: seq<T>, edits: seq<Edit<T>>, hunks: seq<Hunk>, l: int)
    requires DiffOf(file, edits, hunks) && 1 <= l <= |file| && OldToNew(hunks, l).Some?
    ensures var m := OldToNew(hunks, l).value;
      1 <= m <= |Apply(file, edits, 0)| && Apply(file, edits, 0)[m - 1] == file[l - 1]
  {
    var m := OldToNew(hunks, l).value;
    MapIsProvenance(file, edits, hunks, l, m);
    OriginsCarryLength(file, edits, 0, 0);
    OriginsCarryText(file, edits, 0, 0, m - 1);
  }

  /** The images and the added blocks partition the new file; each image has one source. */
  lemma ImagesAndAddedBlocksPartition<T>(file: seq<T>, edits: seq<Edit<T>>, hunks: seq<Hunk>, m: int)
    requires DiffOf(file, edits, hunks) && 1 <= m <= |Apply(file, edits, 0)|
    ensures InAddedBlock(hunks, m) <==> !IsImage(hunks, |file|, m)
    ensures forall l, l' :: 1 <= l <= |file| && 1 <= l' <= |file| && OldToNew(hunks, l) == Some(m) == OldToNew(hunks, l') ==> l == l'
  {
    var origins := Origins(edits, 0, 0, |file|);
    OriginsCarryLength(file, edits, 0, 0);
    hide Hunks;
    hide OldToNew;
    hide Apply;
    hide InOrder;
    if origins[m - 1].Added? {
      AddedIsInBlock(edits, 0, 0, 0, |file|, m - 1);
      assert hunks[origins[m - 1].hunk] in hunks;
    }
    forall l ensures (1 <= l <= |file| && OldToNew(hunks, l) == Some(m)) <==> origins[m - 1] == Kept(l) {
      MapIsProvenance(file, edits, hunks, l, m);
    }
    if InAddedBlock(hunks, m) {
      var k :| 0 <= k < |hunks| && hunks[k].newStart <= m < hunks[k].newStart + hunks[k].newCount;
      AddedBlockHoldsAdded(edits, 0, 0, 0, |file|, k, m - hunks[k].newStart);
    }
  }

  /** The new lines a hunk header counts are the lines its edit added, in order. */
  lemma {:induction false} AddedBlockHoldsAdded<T>(edits: seq<Edit<T>>, k: nat, at: nat, newAt: nat, n: nat, h: nat, i: nat)
    requires InOrder(edits, at, n) && h < |edits| && i < Hunks(edits, at, newAt, n)[h].newCount
    ensures var j := Hunks(edits, at, newAt, n)[h].newStart + i - newAt - 1;
      0 <= j < |Origins(edits, k, at, n)| && Origins(edits, k, at, n)[j] == Added(k + h, i)
    decreases edits
  {
    var e := edits[0];
    OriginsLength(edits, k, at, n);
    HunksAt(edits, at, newAt, n, h);
    if h > 0 {
      AddedBlockHoldsAdded(edits[1..], k + 1, e.After(), newAt + e.before - at + |e.added|, n, h - 1, i);
    }
    OriginsAt(edits, k, at, n, Hunks(edits, at, newAt, n)[h].newStart + i - newAt - 1);
  }

  /** The net number of lines gained by the hunks that start shifting in `(lo, hi]`. */
  ghost function GainedWithin(hunks: seq<Hunk>, lo: int, hi: int): int {
    if hunks == [] then 0
    else (if lo < hunks[0].FirstShiftedOld() <= hi then hunks[0].Delta() else 0) + GainedWithin(hunks[1..], lo, hi)
  }

  lemma {:induction false} ShiftDifference(hunks: seq<Hunk>, lo: int, hi: int)
    requires lo <= hi
    ensures Shift(hunks, hi) == Shift(hunks, lo) + GainedWithin(hunks, lo, hi)
  {
    if hunks != [] {
      ShiftDifference(hunks[1..], lo, hi);
    }
  }

  /**
    A range of surviving endpoints stays a range: the map is strictly increasing, and the
    width changes by exactly the net delta of the hunks between the endpoints.
   */
  lemma RangeStaysForward<T>(file: seq<T>, edits: seq<Edit<T>>, hunks: seq<Hunk>, lo: int, hi: int)
    requires DiffOf(file, edits, hunks) && lo <= hi
    requires OldToNew(hunks, lo).Some? && OldToNew(hunks, hi).Some?
    ensures OldToNew(hunks, hi).value - OldToNew(hunks, lo).value == hi - lo + GainedWithin(hunks, lo, hi)
    ensures lo < hi ==> OldToNew(hunks, lo).value < OldToNew(hunks, hi).value
  {
    ShiftDifference(hunks, lo, hi);
    if lo < hi {
      Increasing(edits, 0, 0, |file|, lo, hi);
    }
  }

  lemma {:induction false} Increasing<T>(edits: seq<Edit<T>>, at: nat, newAt: nat, n: nat, lo: int, hi: int)
    requires InOrder(edits, at, n) && lo < hi
    requires OldToNew(Hunks(edits, at, newAt, n), lo).Some? && OldToNew(Hunks(edits, at, newAt, n), hi).Some?
    ensures OldToNew(Hunks(edits, at, newAt, n), lo).value < OldToNew(Hunks(edits, at, newAt, n), hi).value
    decreases edits
  {
    if edits != [] {
      var e := edits[0];
      var newNext := newAt + e.before - at + |e.added|;
      HunksStep(edits, at, newAt, n, lo);
      HunksStep(edits, at, newAt, n, hi);
      if lo > e.After() {
        Increasing(edits[1..], e.After(), newNext, n, lo, hi);
      } else if hi > e.After() {
        HunksLeavePrefix(edits[1..], e.After(), newNext, n, e.After());
        Increasing(edits[1..], e.After(), newNext, n, e.After(), hi);
      }
    }
  }
}
