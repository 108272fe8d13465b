/** Which lines inside a hunk lead `parse_diff` of `scripts/check_anchor_drift.py` astray, and which do not. */
module DiffHarm {
  import opened Common
  import opened DiffText
  import opened LineMap
  import opened Text

  // ---- When a body line does harm ----------------------------------------------------------------

  predicate IsPlus(line: string) {
    StartsWith(line, "+++ ")
  }

  /** The path the reader takes for the old one after a line. */
  function OldAfterLine(old_: Option<string>, line: string): Option<string> {
    if StartsWith(line, "--- ") then
      var p := Strip(line[4..]);
      if p == NULL then None else Some(StripPrefix(p))
    else old_
  }

  function OldAfter(old_: Option<string>, lines: seq<string>): Option<string> {
    if lines == [] then old_ else OldAfterLine(OldAfter(old_, lines[..|lines| - 1]), lines[|lines| - 1])
  }

  lemma {:induction false} OldAfterConcat(old_: Option<string>, xs: seq<string>, ys: seq<string>)
    ensures OldAfter(old_, xs + ys) == OldAfter(OldAfter(old_, xs), ys)
  {
    hide OldAfterLine;
    if ys == [] {
      assert xs + ys == xs;
    } else {
      assert (xs + ys)[..|xs + ys| - 1] == xs + ys[..|ys| - 1];
      OldAfterConcat(old_, xs, ys[..|ys| - 1]);
    }
  }

  ghost predicate AreBodies(hunks: seq<Printed>) {
    forall k, i :: 0 <= k < |hunks| && 0 <= i < |hunks[k].body| ==> IsBody(hunks[k].body[i])
  }

  /**
    A `+++` line that is passed over without harm: it shows the null device where no old path
    is in force.
   */
  predicate Harmless(old_: Option<string>, line: string) {
    IsPlus(line) ==> Strip(line[4..]) == NULL && !IsSet(old_)
  }

  ghost predicate HarmlessBody(old_: Option<string>, body: seq<string>) {
    forall i :: 0 <= i < |body| ==> Harmless(OldAfter(old_, body[..i]), body[i])
  }

  /** No `+++` line before the last hunk, and only harmless ones in it. */
  ghost predicate HarmlessHunks(old_: Option<string>, hunks: seq<Printed>) {
    hunks != [] ==>
      var init, last := hunks[..|hunks| - 1], hunks[|hunks| - 1];
      PlainHunks(init) && HarmlessBody(OldAfter(old_, PrintHunks(init)), last.body)
  }

  /** The map holds the file, with no more than `n` hunks, and the open section. */
  ghost predicate Tracks(r: Reading, path: string, n: nat) {
    path in r.diff.files && |r.diff.files[path]| <= n && (r.current.Some? ==> r.current.value in r.diff.files)
  }

  /** The file a `+++` line opens. */
  function NameOn(line: string): Option<string> {
    if IsPlus(line) && Strip(line[4..]) != NULL then Some(StripPrefix(Strip(line[4..]))) else None
  }

  ghost predicate OldIsForeign(all: DiffMap, old_: Option<string>) {
    IsSet(old_) ==> old_.value !in all.deleted
  }

  /** A line in the section of `path` names no other file that is meant, and no file meant to be deleted. */
  ghost predicate Foreign(all: DiffMap, path: string, line: string) {
    && (NameOn(line).Some? ==> NameOn(line).value == path || NameOn(line).value !in all.files)
    && OldIsForeign(all, OldAfterLine(None, line))
  }

  ghost predicate ForeignBody(all: DiffMap, path: string, body: seq<string>) {
    forall i :: 0 <= i < |body| ==> Foreign(all, path, body[i])
  }

  ghost predicate ForeignHunks(all: DiffMap, path: string, hunks: seq<Printed>) {
    forall k :: 0 <= k < |hunks| ==> ForeignBody(all, path, hunks[k].body)
  }

  /** The map cannot become the one meant: a file or a deletion too many, or less than the `n` hunks of `path`. */
  ghost predicate Broken(all: DiffMap, r: Reading, path: string, n: nat) {
    || (exists q :: q in r.diff.files && q !in all.files)
    || (path in r.diff.files && |r.diff.files[path]| < n)
    || (exists q :: q in r.diff.deleted && q !in all.deleted)
  }

  /** It is broken already, or will be at the next hunk. */
  ghost predicate Off(all: DiffMap, r: Reading, path: string, n: nat) {
    Broken(all, r, path, n) || r.current.None?
  }

  lemma BodyLineEffect(all: DiffMap, r: Reading, path: string, n: nat, line: string)
    requires Tracks(r, path, n) && n > 0 && IsBody(line) && Foreign(all, path, line) && OldIsForeign(all, r.oldPath)
    ensures Tracks(Read(r, line), path, n) && Read(r, line).oldPath == OldAfterLine(r.oldPath, line)
    ensures OldIsForeign(all, Read(r, line).oldPath)
    ensures Broken(all, r, path, n) || !Harmless(r.oldPath, line) ==> Broken(all, Read(r, line), path, n)
    ensures Off(all, r, path, n) || IsPlus(line) ==> Off(all, Read(r, line), path, n)
  {
    hide Strip;
    if IsPlus(line) {
      hide ParseHunk;
      if Strip(line[4..]) == NULL && IsSet(r.oldPath) {
        assert r.oldPath.value in Read(r, line).diff.deleted;
      }
    } else {
      ReadPlainBody(r, line);
      OldPathOfBody(r, line);
      hide Read;
    }
  }

  lemma OldPathOfBody(r: Reading, line: string)
    requires PlainBody(line)
    ensures Read(r, line).oldPath == OldAfterLine(r.oldPath, line)
  {
    hide Strip;
    hide ParseHunk;
  }

  lemma {:induction false} BodyEffect(all: DiffMap, r: Reading, path: string, n: nat, body: seq<string>)
    requires Tracks(r, path, n) && n > 0 && (forall i :: 0 <= i < |body| ==> IsBody(body[i]))
    requires ForeignBody(all, path, body) && OldIsForeign(all, r.oldPath)
    ensures var after := ReadAll(r, body);
      && Tracks(after, path, n) && after.oldPath == OldAfter(r.oldPath, body) && OldIsForeign(all, after.oldPath)
      && (Broken(all, r, path, n) || !HarmlessBody(r.oldPath, body) ==> Broken(all, after, path, n))
      && (Off(all, r, path, n) || (exists i :: 0 <= i < |body| && IsPlus(body[i])) ==> Off(all, after, path, n))
  {
    hide Read;
    hide Broken;
    hide Off;
    hide Tracks;
    hide Harmless;
    hide OldAfterLine;
    hide IsPlus;
    hide IsBody;
    if body != [] {
      var init := body[..|body| - 1];
      BodyEffect(all, r, path, n, init);
      BodyLineEffect(all, ReadAll(r, init), path, n, body[|body| - 1]);
      forall i | 0 <= i < |init| ensures body[..i] == init[..i] {
      }
    }
  }

  lemma {:induction false} HunksEffect(all: DiffMap, r: Reading, path: string, hunks: seq<Printed>)
    requires Tracks(r, path, 0) && AreBodies(hunks) && ForeignHunks(all, path, hunks) && OldIsForeign(all, r.oldPath)
    ensures var after := ReadAll(r, PrintHunks(hunks));
      && Tracks(after, path, |hunks|) && after.oldPath == OldAfter(r.oldPath, PrintHunks(hunks)) && OldIsForeign(all, after.oldPath)
      && (!PlainHunks(hunks) ==> Off(all, after, path, |hunks|))
      && (!HarmlessHunks(r.oldPath, hunks) ==> Broken(all, after, path, |hunks|))
  {
    hide Read;
    hide PrintHunk;
    hide Tracks;
    hide Broken;
    hide Off;
    hide IsBody;
    hide IsPlus;
    hide HarmlessBody;
    hide OldAfterLine;
    if hunks == [] {
      assert ReadAll(r, []) == r;
    } else {
      var init, last := hunks[..|hunks| - 1], hunks[|hunks| - 1];
      HunksEffect(all, r, path, init);
      var before := ReadAll(r, PrintHunks(init));
      assert hunks == init + [last];
      LastHunk(r, init, last);
      OneMoreHunk(all, before, path, |init|, last.hunk);
      BodyEffect(all, WithHunk(before, last.hunk), path, |hunks|, last.body);
      OldAfterLast(r.oldPath, init, last);
      NotPlain(hunks);
      BrokenIsOff(all, ReadAll(r, PrintHunks(hunks)), path, |hunks|);
    }
  }

  lemma BrokenIsOff(all: DiffMap, r: Reading, path: string, n: nat)
    ensures Broken(all, r, path, n) ==> Off(all, r, path, n)
  {
  }

  lemma NotPlain(hunks: seq<Printed>)
    requires hunks != [] && AreBodies(hunks)
    ensures var init, last := hunks[..|hunks| - 1], hunks[|hunks| - 1];
      PlainHunks(init) && !PlainHunks(hunks) ==> exists i :: 0 <= i < |last.body| && IsPlus(last.body[i])
  {
    hide StartsWith;
    var init, last := hunks[..|hunks| - 1], hunks[|hunks| - 1];
    if PlainHunks(init) && !PlainHunks(hunks) {
      var k, i :| 0 <= k < |hunks| && 0 <= i < |hunks[k].body| && !PlainBody(hunks[k].body[i]);
    }
  }

  lemma LastHunk(r: Reading, init: seq<Printed>, last: Printed)
    ensures ReadAll(r, PrintHunks(init + [last])) == ReadAll(WithHunk(ReadAll(r, PrintHunks(init)), last.hunk), last.body)
  {
    hide Read;
    hide PrintHunk;
    hide WithHunk;
    var header := [PrintHunk(last.hunk, last.context)];
    assert (init + [last])[..|init + [last]| - 1] == init;
    ReadConcat(r, PrintHunks(init) + header, last.body);
    ReadConcat(r, PrintHunks(init), header);
    ReadOne(ReadAll(r, PrintHunks(init)), header[0]);
    ReadHunkLine(ReadAll(r, PrintHunks(init)), last.hunk, last.context);
  }

  lemma OldAfterLast(old_: Option<string>, init: seq<Printed>, last: Printed)
    ensures OldAfter(old_, PrintHunks(init + [last])) == OldAfter(OldAfter(old_, PrintHunks(init)), last.body)
  {
    hide Strip;
    var header := [PrintHunk(last.hunk, last.context)];
    assert header[0][0] == '@';
    hide PrintHunk;
    assert (init + [last])[..|init + [last]| - 1] == init;
    OldAfterConcat(old_, PrintHunks(init) + header, last.body);
    OldAfterConcat(old_, PrintHunks(init), header);
    assert header[..0] == [];
    assert OldAfter(OldAfter(old_, PrintHunks(init)), header) == OldAfter(old_, PrintHunks(init));
  }

  lemma OneMoreHunk(all: DiffMap, r: Reading, path: string, n: nat, h: Hunk)
    requires Tracks(r, path, n)
    ensures Tracks(WithHunk(r, h), path, n + 1) && WithHunk(r, h).oldPath == r.oldPath
    ensures Off(all, r, path, n) ==> Broken(all, WithHunk(r, h), path, n + 1)
  {
    var after := WithHunk(r, h);
    if q :| q in r.diff.files && q !in all.files {
      assert q in after.diff.files;
    }
  }

  lemma {:induction false} AsManyHunks(hunks: seq<Printed>)
    ensures |HunksOf(hunks)| == |hunks|
  {
    if hunks != [] {
      AsManyHunks(hunks[..|hunks| - 1]);
    }
  }

  lemma {:induction false} HarmlessBodyKeeps(r: Reading, body: seq<string>)
    requires (forall i :: 0 <= i < |body| ==> IsBody(body[i])) && HarmlessBody(r.oldPath, body)
    ensures var after := ReadAll(r, body); after.diff == r.diff && after.oldPath == OldAfter(r.oldPath, body)
  {
    hide Read;
    hide Harmless;
    hide OldAfterLine;
    hide IsBody;
    if body != [] {
      var init := body[..|body| - 1];
      forall i | 0 <= i < |init| ensures body[..i] == init[..i] {
      }
      HarmlessBodyKeeps(r, init);
      HarmlessLineKeeps(ReadAll(r, init), body[|body| - 1]);
    }
  }

  lemma HarmlessLineKeeps(r: Reading, line: string)
    requires IsBody(line) && Harmless(r.oldPath, line)
    ensures Read(r, line).diff == r.diff && Read(r, line).oldPath == OldAfterLine(r.oldPath, line)
  {
    hide Strip;
    if IsPlus(line) {
      hide ParseHunk;
      assert r.diff.deleted + {} == r.diff.deleted;
    } else {
      ReadPlainBody(r, line);
      OldPathOfBody(r, line);
      hide Read;
    }
  }

  lemma HarmlessIsRead(r: Reading, hunks: seq<Printed>)
    requires r.current.Some? && r.current.value in r.diff.files && r.diff.files[r.current.value] == []
    requires AreBodies(hunks) && HarmlessHunks(r.oldPath, hunks)
    ensures ReadAll(r, PrintHunks(hunks)).diff == r.diff.(files := r.diff.files[r.current.value := HunksOf(hunks)])
  {
    hide Read;
    hide HarmlessBody;
    hide PlainHunks;
    hide IsBody;
    if hunks == [] {
      assert ReadAll(r, []) == r;
    } else {
      var init, last := hunks[..|hunks| - 1], hunks[|hunks| - 1];
      assert hunks == init + [last];
      ReadHunks(r, init);
      LastHunk(r, init, last);
      OldUpTo(r, init);
      hide PrintHunks;
      hide ReadAll;
      HarmlessBodyKeeps(WithHunk(ReadAll(r, PrintHunks(init)), last.hunk), last.body);
    }
  }

  lemma {:induction false} OldUpTo(r: Reading, hunks: seq<Printed>)
    requires AreBodies(hunks) && PlainHunks(hunks)
    ensures ReadAll(r, PrintHunks(hunks)).oldPath == OldAfter(r.oldPath, PrintHunks(hunks))
  {
    hide Read;
    hide OldAfterLine;
    hide PrintHunk;
    if hunks == [] {
      assert ReadAll(r, []) == r;
    } else {
      var init, last := hunks[..|hunks| - 1], hunks[|hunks| - 1];
      assert hunks == init + [last];
      OldUpTo(r, init);
      LastHunk(r, init, last);
      OldAfterLast(r.oldPath, init, last);
      var before := WithHunk(ReadAll(r, PrintHunks(init)), last.hunk);
      forall i | 0 <= i < |last.body| ensures IsBody(last.body[i]) && !IsPlus(last.body[i]) {
        assert PlainBody(hunks[|init|].body[i]);
      }
      hide WithHunk;
      hide IsBody;
      HarmlessBodyKeeps(before, last.body);
    }
  }

  // ---- Whole transcripts ---------------------------------------------------------------------------

  /** The hunks of a section are passed over without harm; a deletion adds no line. */
  ghost predicate HarmlessSection(f: Section) {
    f.content ==> if f.newPath.None? then PlainHunks(f.hunks) else HarmlessHunks(f.oldPath, f.hunks)
  }

  /** Reading one printed section, in whatever state, gives what it says. */
  lemma ReadSection(r: Reading, f: Section)
    requires WellFormed(f) && AreBodies(f.hunks) && HarmlessSection(f)
    ensures ReadAll(r, PrintSection(f)).diff == Meant(r.diff, f)
  {
    hide Read;
    hide PathLine;
    hide HarmlessBody;
    hide PlainHunks;
    hide IsBody;
    if f.content {
      ReadUpToHunks(r, f);
      var open := Opened(r, f);
      if f.newPath.Some? {
        HarmlessIsRead(open, f.hunks);
        assert open.diff.files[f.newPath.value := HunksOf(f.hunks)] == r.diff.files[f.newPath.value := HunksOf(f.hunks)];
      } else {
        ReadHunks(open, f.hunks);
      }
    } else {
      ReadHead(r, f);
      assert ReadAll(Named(r, f), []) == Named(r, f);
    }
  }

  /**
    Round trip: reading a printed transcript of any number of files gives exactly what its
    sections say, as long as every `+++` line in a hunk is harmless. A removed line that
    displays as a `---` line, an elided count of 1 and a printed count of 0 do no harm.
   */
  lemma {:induction false} ReadPrinted(fs: seq<Section>)
    requires forall i :: 0 <= i < |fs| ==> WellFormed(fs[i]) && AreBodies(fs[i].hunks) && HarmlessSection(fs[i])
    ensures ReadAll(Nothing, PrintAll(fs)).diff == MeantAll(fs)
  {
    hide PrintSection;
    hide Meant;
    hide HarmlessSection;
    hide AreBodies;
    hide WellFormed;
    if fs == [] {
      assert ReadAll(Nothing, []) == Nothing;
    } else {
      ReadPrinted(fs[..|fs| - 1]);
      ReadConcat(Nothing, PrintAll(fs[..|fs| - 1]), PrintSection(fs[|fs| - 1]));
      ReadSection(ReadAll(Nothing, PrintAll(fs[..|fs| - 1])), fs[|fs| - 1]);
    }
  }

  predicate Opens(f: Section) {
    f.content && f.newPath.Some?
  }

  /** The section of a changed file keeps to its own path. */
  ghost predicate KeepsToItself(all: DiffMap, f: Section) {
    if Opens(f) then OldIsForeign(all, f.oldPath) && ForeignHunks(all, f.newPath.value, f.hunks)
    else f.content ==> PlainHunks(f.hunks)
  }

  /** Every path is changed once, no body line names another section's file, and deletions add no line. */
  ghost predicate Apart(fs: seq<Section>) {
    && (forall i, j :: 0 <= i < j < |fs| && Opens(fs[i]) && Opens(fs[j]) ==> fs[i].newPath != fs[j].newPath)
    && forall i :: 0 <= i < |fs| ==> KeepsToItself(MeantAll(fs), fs[i])
  }

  // A broken map stays broken while other files are read.

  /** Nothing of `path` is changed, and no file and no deletion is taken back. */
  ghost predicate Extends(r: Reading, after: Reading, path: string) {
    && r.diff.files.Keys <= after.diff.files.Keys && r.diff.deleted <= after.diff.deleted
    && (path in r.diff.files ==> after.diff.files[path] == r.diff.files[path])
    && (path !in r.diff.files ==> path !in after.diff.files)
    && after.current != Some(path)
  }

  lemma BodyLineLeaves(r: Reading, line: string, path: string)
    requires IsBody(line) && r.current != Some(path) && NameOn(line) != Some(path)
    ensures Extends(r, Read(r, line), path)
  {
    hide Strip;
    if IsPlus(line) {
      hide ParseHunk;
    } else {
      ReadPlainBody(r, line);
      hide Read;
    }
  }

  lemma {:induction false} BodyLeaves(r: Reading, body: seq<string>, path: string)
    requires r.current != Some(path) && forall i :: 0 <= i < |body| ==> IsBody(body[i]) && NameOn(body[i]) != Some(path)
    ensures Extends(r, ReadAll(r, body), path)
  {
    hide Read;
    hide NameOn;
    hide IsBody;
    if body != [] {
      BodyLeaves(r, body[..|body| - 1], path);
      BodyLineLeaves(ReadAll(r, body[..|body| - 1]), body[|body| - 1], path);
    }
  }

  ghost predicate NoneNames(hunks: seq<Printed>, path: string) {
    forall k, i :: 0 <= k < |hunks| && 0 <= i < |hunks[k].body| ==> NameOn(hunks[k].body[i]) != Some(path)
  }

  lemma {:induction false} HunksLeave(r: Reading, hunks: seq<Printed>, path: string)
    requires r.current != Some(path) && AreBodies(hunks) && NoneNames(hunks, path)
    ensures Extends(r, ReadAll(r, PrintHunks(hunks)), path)
  {
    hide Read;
    hide PrintHunk;
    hide NameOn;
    hide IsBody;
    if hunks == [] {
      assert ReadAll(r, []) == r;
    } else {
      var init, last := hunks[..|hunks| - 1], hunks[|hunks| - 1];
      assert hunks == init + [last];
      HunksLeave(r, init, path);
      LastHunk(r, init, last);
      var before := ReadAll(r, PrintHunks(init));
      assert Extends(before, WithHunk(before, last.hunk), path);
      forall i | 0 <= i < |last.body| ensures IsBody(last.body[i]) && NameOn(last.body[i]) != Some(path) {
        assert hunks[|init|] == last;
      }
      BodyLeaves(WithHunk(before, last.hunk), last.body, path);
    }
  }

  lemma SectionLeaves(r: Reading, f: Section, path: string)
    requires WellFormed(f) && AreBodies(f.hunks) && (f.content ==> NoneNames(f.hunks, path)) && (Opens(f) ==> f.newPath != Some(path))
    ensures Extends(r, ReadAll(r, PrintSection(f)), path)
  {
    hide Read;
    hide PrintHunks;
    hide PathLine;
    hide AreBodies;
    hide NoneNames;
    hide WellFormed;
    if f.content {
      ReadUpToHunks(r, f);
      HunksLeave(Opened(r, f), f.hunks, path);
    } else {
      ReadHead(r, f);
      assert ReadAll(Named(r, f), []) == Named(r, f);
    }
  }

  lemma BrokenStays(all: DiffMap, r: Reading, after: Reading, path: string, n: nat)
    requires Broken(all, r, path, n) && Extends(r, after, path)
    ensures Broken(all, after, path, n)
  {
    if q :| q in r.diff.files && q !in all.files {
      assert q in after.diff.files;
    } else if q :| q in r.diff.deleted && q !in all.deleted {
      assert q in after.diff.deleted;
    }
  }

  /** The map that is meant has every changed file, with its hunks. */
  lemma {:induction false} MeantHas(fs: seq<Section>, j: nat)
    requires j < |fs| && Opens(fs[j])
    requires forall i :: j < i < |fs| && Opens(fs[i]) ==> fs[i].newPath != fs[j].newPath
    ensures fs[j].newPath.value in MeantAll(fs).files && MeantAll(fs).files[fs[j].newPath.value] == HunksOf(fs[j].hunks)
  {
    if j < |fs| - 1 {
      assert fs[..|fs| - 1][j] == fs[j];
      MeantHas(fs[..|fs| - 1], j);
    }
  }

  /** A harmful section breaks the map at once. */
  lemma HarmfulBreaks(all: DiffMap, r: Reading, f: Section)
    requires WellFormed(f) && AreBodies(f.hunks) && KeepsToItself(all, f) && Opens(f) && !HarmlessSection(f)
    ensures Broken(all, ReadAll(r, PrintSection(f)), f.newPath.value, |f.hunks|)
  {
    hide PrintHunks;
    hide Read;
    hide PathLine;
    hide ForeignHunks;
    hide HarmlessHunks;
    hide AreBodies;
    hide WellFormed;
    hide Broken;
    ReadUpToHunks(r, f);
    HunksEffect(all, Opened(r, f), f.newPath.value, f.hunks);
  }

  /** A body line of one section names no other section's file. */
  lemma OthersDoNotName(fs: seq<Section>, j: nat, m: nat)
    requires Apart(fs) && j < m < |fs| && Opens(fs[j])
    ensures (fs[m].content ==> NoneNames(fs[m].hunks, fs[j].newPath.value)) && (Opens(fs[m]) ==> fs[m].newPath != Some(fs[j].newPath.value))
  {
    hide Strip;
    var path, g := fs[j].newPath.value, fs[m];
    MeantHas(fs, j);
    hide MeantAll;
    assert KeepsToItself(MeantAll(fs), g);
    if Opens(g) {
      hide NameOn;
      forall k, i | 0 <= k < |g.hunks| && 0 <= i < |g.hunks[k].body| ensures NameOn(g.hunks[k].body[i]) != Some(path) {
        assert ForeignBody(MeantAll(fs), g.newPath.value, g.hunks[k].body);
        assert Foreign(MeantAll(fs), g.newPath.value, g.hunks[k].body[i]);
      }
    } else if g.content {
      hide StartsWith;
      forall k, i | 0 <= k < |g.hunks| && 0 <= i < |g.hunks[k].body| ensures NameOn(g.hunks[k].body[i]) != Some(path) {
        assert PlainBody(g.hunks[k].body[i]);
      }
    }
  }

  ghost predicate AllWellFormed(fs: seq<Section>) {
    forall i :: 0 <= i < |fs| ==> WellFormed(fs[i]) && AreBodies(fs[i].hunks)
  }

  lemma {:induction false} StaysBroken(fs: seq<Section>, j: nat, m: nat)
    requires AllWellFormed(fs) && Apart(fs) && j < m <= |fs| && Opens(fs[j]) && !HarmlessSection(fs[j])
    ensures Broken(MeantAll(fs), ReadAll(Nothing, PrintAll(fs[..m])), fs[j].newPath.value, |fs[j].hunks|)
  {
    hide Broken;
    hide PrintSection;
    hide Read;
    hide MeantAll;
    hide HarmlessSection;
    hide Extends;
    hide KeepsToItself;
    hide NoneNames;
    hide WellFormed;
    hide AreBodies;
    var init, last := fs[..m - 1], fs[m - 1];
    assert fs[..m][..m - 1] == init && fs[..m][m - 1] == last;
    ReadConcat(Nothing, PrintAll(init), PrintSection(last));
    var before := ReadAll(Nothing, PrintAll(init));
    if j == m - 1 {
      HarmfulBreaks(MeantAll(fs), before, last);
    } else {
      StaysBroken(fs, j, m - 1);
      OthersDoNotName(fs, j, m - 1);
      SectionLeaves(before, last, fs[j].newPath.value);
      BrokenStays(MeantAll(fs), before, ReadAll(before, PrintSection(last)), fs[j].newPath.value, |fs[j].hunks|);
    }
  }

  lemma BrokenIsNotMeant(all: DiffMap, r: Reading, path: string, n: nat)
    requires path in all.files && |all.files[path]| == n && Broken(all, r, path, n)
    ensures r.diff != all
  {
  }

  /**
    Exactly when a transcript of any number of files is read as meant, if every path is
    changed once and no body line names another section's file: if and only if no line of a
    hunk displays as a `+++` line, except, in the last hunk of a file, as `+++ /dev/null`
    where no old path is in force.
   */
  lemma ReadPrintedIffHarmless(fs: seq<Section>)
    requires AllWellFormed(fs) && Apart(fs)
    ensures ReadAll(Nothing, PrintAll(fs)).diff == MeantAll(fs) <==> forall i :: 0 <= i < |fs| ==> HarmlessSection(fs[i])
  {
    hide HarmlessHunks;
    hide PlainHunks;
    hide WellFormed;
    hide AreBodies;
    hide ReadAll;
    hide PrintAll;
    hide MeantAll;
    hide Broken;
    if j :| 0 <= j < |fs| && !HarmlessSection(fs[j]) {
      assert KeepsToItself(MeantAll(fs), fs[j]);
      assert Opens(fs[j]);
      hide HarmlessSection;
      StaysBroken(fs, j, |fs|);
      assert fs[..|fs|] == fs;
      MeantHas(fs, j);
      AsManyHunks(fs[j].hunks);
      BrokenIsNotMeant(MeantAll(fs), ReadAll(Nothing, PrintAll(fs)), fs[j].newPath.value, |fs[j].hunks|);
    } else {
      ReadPrinted(fs);
    }
  }

  lemma OneIsApart(f: Section)
    requires Opens(f)
    ensures Apart([f]) && MeantAll([f]) == Meant(Nothing.diff, f) && PrintAll([f]) == PrintSection(f)
  {
    hide PrintSection;
    hide Strip;
    hide StartsWith;
    assert [f][..0] == [];
    assert PrintAll([]) + PrintSection(f) == PrintSection(f);
    var all := MeantAll([f]);
    assert MeantAll([]) == Nothing.diff && all == Meant(Nothing.diff, f);
    assert all.files.Keys == {f.newPath.value} && all.deleted == {};
    forall k | 0 <= k < |f.hunks| ensures ForeignBody(all, f.newPath.value, f.hunks[k].body) {
    }
    assert ForeignHunks(all, f.newPath.value, f.hunks);
    assert KeepsToItself(all, f);
  }

  /** For the transcript of a single changed file, the condition is exact as it stands. */
  lemma ReadAsMeantIffHarmless(f: Section)
    requires WellFormed(f) && f.content && f.newPath.Some? && AreBodies(f.hunks)
    ensures ReadAll(Nothing, PrintSection(f)).diff == Meant(Nothing.diff, f) <==> HarmlessHunks(f.oldPath, f.hunks)
  {
    OneIsApart(f);
    hide Apart;
    hide MeantAll;
    hide Meant;
    hide PrintAll;
    hide PrintSection;
    hide HarmlessHunks;
    hide WellFormed;
    hide AreBodies;
    assert [f][0] == f;
    ReadPrintedIffHarmless([f]);
    assert HarmlessSection(f) <==> HarmlessHunks(f.oldPath, f.hunks);
  }

  /** A file whose first hunk adds the line `++ b/g`: a transcript that is not read as meant. */
  const TrickyFile := Section("a/f b/f", [], None, "", [], true, Some("f"), Some("f"), "",
    [Printed(Hunk(1, 1, 1, 1), "", ["-x", "+++ b/g"]), Printed(Hunk(3, 1, 3, 1), "", ["-y", "+z"])])

  lemma PlusLineMisleads()
    ensures WellFormed(TrickyFile) && ReadAll(Nothing, PrintSection(TrickyFile)).diff != Meant(Nothing.diff, TrickyFile)
  {
    var line := TrickyFile.hunks[0].body[1];
    assert line[..4] == "+++ ";
    assert !PlainBody(line);
    assert TrickyFile.hunks[..1][0] == TrickyFile.hunks[0];
    hide ReadAll;
    ReadAsMeantIffHarmless(TrickyFile);
  }

  // ---- Quoted paths ----------------------------------------------------------------------------------

  /** How git shows an unusual path: escaped, and in quotes that stand in front of the prefix. */
  function Quoted(prefix: string, escaped: string): string {
    "\"" + prefix + escaped + "\""
  }

  /** The transcript of a changed file whose path is unusual. */
  function PrintQuoted(title: string, headers: seq<string>, old_: string, new_: string, trailer: string, hunks: seq<Printed>): seq<string> {
    PrintSection(Untitled(title, headers))
    + ["--- " + Quoted("a/", old_) + trailer, "+++ " + Quoted("b/", new_) + trailer] + PrintHunks(hunks)
  }

  function Untitled(title: string, headers: seq<string>): Section {
    Section(title, headers, None, "", [], false, None, None, "", [])
  }

  /** The prefix is not stripped, so the file is entered under its quoted path. */
  lemma QuotedPathIsTheKey(
    r: Reading, title: string, headers: seq<string>, old_: string, new_: string, trailer: string, hunks: seq<Printed>)
    requires (forall i :: 0 <= i < |headers| ==> IsInert(headers[i])) && IsTrailer(trailer) && PlainHunks(hunks)
    ensures ReadAll(r, PrintQuoted(title, headers, old_, new_, trailer, hunks)).diff
         == r.diff.(files := r.diff.files[Quoted("b/", new_) := HunksOf(hunks)])
  {
    var head, named := Untitled(title, headers), Named(r, Untitled(title, headers));
    var minus, plus := "--- " + Quoted("a/", old_) + trailer, "+++ " + Quoted("b/", new_) + trailer;
    ReadHead(r, head);
    assert ReadAll(named, []) == named;
    ReadQuotedLine(named, "a/", old_, trailer);
    var second := Read(named, minus);
    ReadQuotedLine(second, "b/", new_, trailer);
    var open := Read(second, plus);
    hide Read;
    hide PrintSection;
    hide PlainHunks;
    ReadConcat(r, PrintSection(head) + [minus, plus], PrintHunks(hunks));
    ReadConcat(r, PrintSection(head), [minus, plus]);
    assert [minus, plus][..1] == [minus];
    ReadOne(named, minus);
    ReadHunks(open, hunks);
    assert open.diff.files[Quoted("b/", new_) := HunksOf(hunks)] == r.diff.files[Quoted("b/", new_) := HunksOf(hunks)];
  }

  lemma ReadQuotedLine(r: Reading, prefix: string, escaped: string, trailer: string)
    requires IsTrailer(trailer)
    ensures Read(r, "--- " + Quoted(prefix, escaped) + trailer) == r.(oldPath := Some(Quoted(prefix, escaped)))
    ensures r.renameFrom.None? ==>
      Read(r, "+++ " + Quoted(prefix, escaped) + trailer) ==
        r.(current := Some(Quoted(prefix, escaped)), diff := r.diff.(files := r.diff.files[Quoted(prefix, escaped) := []]))
  {
    var shown := Quoted(prefix, escaped);
    var minus, plus := "--- " + shown + trailer, "+++ " + shown + trailer;
    assert minus[..4] == "--- " && plus[..4] == "+++ " && minus[4..] == shown + trailer && plus[4..] == shown + trailer;
    assert minus[0] == '-' && plus[0] == '+';
    StripTrailing(shown, trailer);
    QuoteIsNoPrefix(prefix, escaped);
    hide Strip;
    hide StripPrefix;
    hide ParseHunk;
    hide Quoted;
  }

  lemma QuoteIsNoPrefix(prefix: string, escaped: string)
    ensures StripPrefix(Quoted(prefix, escaped)) == Quoted(prefix, escaped) != NULL
  {
    var shown := Quoted(prefix, escaped);
    assert shown[0] == '"';
  }
}
