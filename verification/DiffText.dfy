/** `parse_diff` of `scripts/check_anchor_drift.py`: a `git diff -U0` transcript reduced to its hunks. */
module DiffText {
  import opened Common
  import opened Decimal
  import opened LineMap
  import opened Text

  /** The parsed range: hunks of touched files, renames and deletions. */
  datatype DiffMap = DiffMap(files: map<string, seq<Hunk>>, renames: map<string, string>, deleted: set<string>)

  const NULL := "/dev/null"

  predicate StartsWith(s: string, prefix: string) {
    prefix <= s
  }

  function StripPrefix(path: string): string {
    if StartsWith(path, "a/") || StartsWith(path, "b/") then path[2..] else path
  }

  // ---- Hunk headers ---------------------------------------------------------------------------

  /** One side of a hunk header, and where it ends. */
  datatype Side = Side(start: nat, count: nat, end: nat)

  lemma DigitsOnly(line: string, i: nat)
    requires i <= |line|
    ensures AllDigits(line[i..DigitsEnd(line, i)])
  {
  }

  /** Digits, then optionally a comma and digits; an elided count is 1. */
  function ParseSide(line: string, i: nat): (side: Option<Side>)
    requires i <= |line|
    ensures side.Some? ==> i < side.value.end <= |line|
  {
    var k := DigitsEnd(line, i);
    DigitsOnly(line, i);
    if k == i then None
    else
      var n := if k < |line| && line[k] == ',' then DigitsEnd(line, k + 1) else k;
      if n > k + 1 then
        DigitsOnly(line, k + 1);
        Some(Side(ValueOf(line[i..k]), ValueOf(line[k + 1..n]), n))
      else Some(Side(ValueOf(line[i..k]), 1, k))
  }

  predicate HasAt(line: string, i: nat, word: string) {
    i <= |line| && word <= line[i..]
  }

  /** `@@ -old,count +new,count @@` at the start of the line. */
  function ParseHunk(line: string): Option<Hunk> {
    if !HasAt(line, 0, "@@ -") then None
    else
      var old_ := ParseSide(line, 4);
      if old_.None? || !HasAt(line, old_.value.end, " +") then None
      else
        var new_ := ParseSide(line, old_.value.end + 2);
        if new_.None? || !HasAt(line, new_.value.end, " @@") then None
        else Some(Hunk(old_.value.start, old_.value.count, new_.value.start, new_.value.count))
  }

  /** As git prints them: a count of 1 is left out, a count of 0 is not. */
  function PrintSide(start: nat, count: nat): string {
    Print(start) + if count == 1 then "" else "," + Print(count)
  }

  function PrintHunk(h: Hunk, context: string): string {
    "@@ -" + PrintSide(h.oldStart, h.oldCount) + " +" + PrintSide(h.newStart, h.newCount) + " @@" + context
  }

  lemma NumeralAt(line: string, i: nat, k: nat, n: nat)
    requires i <= k <= |line| && line[i..k] == Print(n) && (k < |line| ==> !IsDigit(line[k]))
    ensures i < k && DigitsEnd(line, i) == k && AllDigits(line[i..k]) && ValueOf(line[i..k]) == n
  {
    hide Print;
    hide ValueOf;
    ValueOfPrint(n);
    forall j | i <= j < k ensures IsDigit(line[j]) {
      assert line[j] == line[i..k][j - i];
    }
    DigitsEndOf(line, i, k);
  }

  /** Reading back one printed side, if no digit and no comma follows it. */
  lemma ParseSideAt(line: string, i: nat, start: nat, count: nat, e: nat)
    requires i <= e < |line| && line[i..e] == PrintSide(start, count) && !IsDigit(line[e]) && line[e] != ','
    ensures ParseSide(line, i) == Some(Side(start, count, e))
  {
    hide Print;
    hide ValueOf;
    hide DigitsEnd;
    var k := i + |Print(start)|;
    assert line[i..k] == line[i..e][..|Print(start)|] == Print(start);
    if count != 1 {
      assert line[k] == line[i..e][k - i] == ',';
      assert line[k + 1..e] == line[i..e][k + 1 - i..] == Print(count);
      NumeralAt(line, k + 1, e, count);
    }
    NumeralAt(line, i, k, start);
  }

  lemma HunkParts(h: Hunk, context: string)
    ensures var line := PrintHunk(h, context);
      var a := 4 + |PrintSide(h.oldStart, h.oldCount)|;
      var b := a + 2 + |PrintSide(h.newStart, h.newCount)|;
      && b + 3 <= |line|
      && HasAt(line, 0, "@@ -") && line[4..a] == PrintSide(h.oldStart, h.oldCount)
      && HasAt(line, a, " +") && line[a] == ' '
      && line[a + 2..b] == PrintSide(h.newStart, h.newCount) && HasAt(line, b, " @@") && line[b] == ' '
  {
    hide PrintSide;
  }

  /** Reading back a printed hunk header, whatever follows it on the line. */
  lemma ParsePrintedHunk(h: Hunk, context: string)
    ensures ParseHunk(PrintHunk(h, context)) == Some(h)
  {
    HunkParts(h, context);
    var line := PrintHunk(h, context);
    var a := 4 + |PrintSide(h.oldStart, h.oldCount)|;
    var b := a + 2 + |PrintSide(h.newStart, h.newCount)|;
    hide PrintHunk;
    hide PrintSide;
    hide HasAt;
    ParseSideAt(line, 4, h.oldStart, h.oldCount, a);
    ParseSideAt(line, a + 2, h.newStart, h.newCount, b);
    hide ParseSide;
  }

  // ---- The line loop ----------------------------------------------------------------------------

  /** What the loop has read: the map so far and the file section it is in. */
  datatype Reading = Reading(diff: DiffMap, current: Option<string>, oldPath: Option<string>, renameFrom: Option<string>)

  const Nothing := Reading(DiffMap(map[], map[], {}), None, None, None)

  predicate IsSet(path: Option<string>) {
    path.Some? && path.value != ""
  }

  /** One line of the transcript. */
  function Read(r: Reading, line: string): Reading {
    if StartsWith(line, "diff --git ") then r.(current := None, oldPath := None, renameFrom := None)
    else if StartsWith(line, "--- ") then
      var p := Strip(line[4..]);
      r.(oldPath := if p == NULL then None else Some(StripPrefix(p)))
    else if StartsWith(line, "+++ ") then
      var p := Strip(line[4..]);
      if p == NULL then
        r.(current := None, diff := r.diff.(deleted := r.diff.deleted + if IsSet(r.oldPath) then {r.oldPath.value} else {}))
      else
        var path := StripPrefix(p);
        r.(current := Some(path), diff := r.diff.(
             files := r.diff.files[path := []],
             renames := if IsSet(r.renameFrom) then r.diff.renames[r.renameFrom.value := path] else r.diff.renames))
    else if StartsWith(line, "rename from ") then r.(renameFrom := Some(Strip(line[12..])))
    else if StartsWith(line, "rename to ") then r
    else
      var h := ParseHunk(line);
      if h.Some? && r.current.Some? && r.current.value in r.diff.files then
        var path := r.current.value;
        r.(diff := r.diff.(files := r.diff.files[path := r.diff.files[path] + [h.value]]))
      else r
  }

  function ReadAll(r: Reading, lines: seq<string>): Reading {
    if lines == [] then r else Read(ReadAll(r, lines[..|lines| - 1]), lines[|lines| - 1])
  }

  /** One file's hunk list, filled while its section is read. */
  class FileDiff {
    const path: string
    var hunks: seq<Hunk>

    constructor (path: string)
      ensures this.path == path && hunks == []
    {
      this.path := path;
      hunks := [];
    }
  }

  /** The files read so far as values, and the open section by its path. */
  ghost predicate Shows(files: map<string, FileDiff>, current: FileDiff?, r: Reading)
    reads set p | p in files :: files[p]
  {
    && files.Keys == r.diff.files.Keys
    && (forall p :: p in files ==> files[p].path == p && files[p].hunks == r.diff.files[p])
    && (if current == null then r.current.None?
        else r.current == Some(current.path) && current.path in files && files[current.path] == current)
  }

  method ParseDiff(lines: seq<string>) returns (diff: DiffMap)
    ensures diff == ReadAll(Nothing, lines).diff
  {
    var files: map<string, FileDiff> := map[];
    var renames: map<string, string> := map[];
    var deleted: set<string> := {};
    var current: FileDiff? := null;
    var oldPath: Option<string> := None;
    var renameFrom: Option<string> := None;
    ghost var r := Nothing;
    for i := 0 to |lines|
      invariant forall p :: p in files ==> fresh(files[p])
      invariant r == ReadAll(Nothing, lines[..i])
      invariant Shows(files, current, r)
      invariant renames == r.diff.renames && deleted == r.diff.deleted && oldPath == r.oldPath && renameFrom == r.renameFrom
    {
      var line := lines[i];
      assert lines[..i + 1][..i] == lines[..i];
      ghost var next := Read(r, line);
      assert ReadAll(Nothing, lines[..i + 1]) == next;
      hide ReadAll;
      hide ParseHunk;
      hide Strip;
      hide StripPrefix;
      if StartsWith(line, "diff --git ") {
        current, oldPath, renameFrom := null, None, None;
      } else if StartsWith(line, "--- ") {
        var p := Strip(line[4..]);
        oldPath := if p == NULL then None else Some(StripPrefix(p));
      } else if StartsWith(line, "+++ ") {
        var p := Strip(line[4..]);
        if p == NULL {
          if IsSet(oldPath) {
            deleted := deleted + {oldPath.value};
          }
          current := null;
        } else {
          var path := StripPrefix(p);
          files, current := AddSection(files, path, current, r);
          if IsSet(renameFrom) {
            renames := renames[renameFrom.value := path];
          }
        }
      } else if StartsWith(line, "rename from ") {
        renameFrom := Some(Strip(line[12..]));
      } else if !StartsWith(line, "rename to ") {
        var h := ParseHunk(line);
        if h.Some? && current != null {
          AddHunk(files, current, h.value, r);
        }
      }
      assert Shows(files, current, next);
      hide Shows;
      hide Read;
      r := next;
    }
    assert lines[..|lines|] == lines;
    diff := DiffMap(map p | p in files :: files[p].hunks, renames, deleted);
  }

  /** `out.files[path] = current = FileDiff(path)`: a fresh section, in place of an earlier one of that path. */
  method AddSection(files: map<string, FileDiff>, path: string, current: FileDiff?, ghost r: Reading)
    returns (after: map<string, FileDiff>, section: FileDiff)
    requires Shows(files, current, r)
    ensures fresh(section) && after == files[path := section]
    ensures Shows(after, section, r.(current := Some(path), diff := r.diff.(files := r.diff.files[path := []])))
  {
    section := new FileDiff(path);
    after := files[path := section];
  }

  /** `current.hunks.append(hunk)`: the open section grows, every other one is another object. */
  method AddHunk(files: map<string, FileDiff>, current: FileDiff, h: Hunk, ghost r: Reading)
    requires Shows(files, current, r)
    modifies current
    ensures Shows(files, current, r.(diff := r.diff.(files := r.diff.files[current.path := r.diff.files[current.path] + [h]])))
  {
    current.hunks := current.hunks + [h];
  }

  // ---- Reading back a printed transcript ---------------------------------------------------------

  /** A hunk as printed: its header, the text git puts behind it, and its body lines. */
  datatype Printed = Printed(hunk: Hunk, context: string, body: seq<string>)

  /**
    One file of a range. `headers` are the mode and similarity lines, `behind` those that
    follow a rename, the index line in particular; a file without content lines (a pure
    rename or mode change, a binary file) prints no `---`, `+++` or hunk.
   */
  datatype Section = Section(
    title: string, headers: seq<string>, renameFrom: Option<string>, renameTo: string, behind: seq<string>,
    content: bool, oldPath: Option<string>, newPath: Option<string>, trailer: string, hunks: seq<Printed>)

  function PathLine(mark: string, prefix: string, path: Option<string>, trailer: string): string {
    mark + " " + (if path.None? then NULL else prefix + path.value) + trailer
  }

  function PrintHunks(hunks: seq<Printed>): seq<string> {
    if hunks == [] then []
    else PrintHunks(hunks[..|hunks| - 1]) + [PrintHunk(hunks[|hunks| - 1].hunk, hunks[|hunks| - 1].context)] + hunks[|hunks| - 1].body
  }

  function PrintSection(f: Section): seq<string> {
    ["diff --git " + f.title] + f.headers
    + (if f.renameFrom.Some? then ["rename from " + f.renameFrom.value, "rename to " + f.renameTo] else [])
    + f.behind
    + (if f.content then
         [PathLine("---", "a/", f.oldPath, f.trailer), PathLine("+++", "b/", f.newPath, f.trailer)] + PrintHunks(f.hunks)
       else [])
  }

  function PrintAll(fs: seq<Section>): seq<string> {
    if fs == [] then [] else PrintAll(fs[..|fs| - 1]) + PrintSection(fs[|fs| - 1])
  }

  /** A line the reader passes over in any state. */
  ghost predicate IsInert(line: string) {
    && !StartsWith(line, "diff --git ") && !StartsWith(line, "--- ") && !StartsWith(line, "+++ ")
    && !StartsWith(line, "rename from ") && ParseHunk(line).None?
  }

  /** A removed, added or no-newline line; only one that displays as `+++ ...` is not a plain body line. */
  ghost predicate IsBody(line: string) {
    line != "" && line[0] in {'-', '+', '\\'}
  }

  ghost predicate PlainBody(line: string) {
    IsBody(line) && !StartsWith(line, "+++ ")
  }

  ghost predicate IsPath(path: string) {
    path != "" && !IsSpace(path[0]) && !IsSpace(path[|path| - 1])
  }

  ghost predicate IsTrailer(trailer: string) {
    forall i :: 0 <= i < |trailer| ==> IsSpace(trailer[i])
  }

  ghost predicate WellFormed(f: Section) {
    && (forall i :: 0 <= i < |f.headers| ==> IsInert(f.headers[i]))
    && (forall i :: 0 <= i < |f.behind| ==> IsInert(f.behind[i]))
    && (f.renameFrom.Some? ==> IsPath(f.renameFrom.value))
    && (f.oldPath.Some? ==> IsPath(f.oldPath.value)) && (f.newPath.Some? ==> IsPath(f.newPath.value))
    && IsTrailer(f.trailer)
  }

  ghost predicate PlainHunks(hunks: seq<Printed>) {
    forall k, i :: 0 <= k < |hunks| && 0 <= i < |hunks[k].body| ==> PlainBody(hunks[k].body[i])
  }

  function HunksOf(hunks: seq<Printed>): seq<Hunk> {
    if hunks == [] then [] else HunksOf(hunks[..|hunks| - 1]) + [hunks[|hunks| - 1].hunk]
  }

  /** What a section says: a file deleted, or a file with these hunks, renamed if it says so. */
  function Meant(diff: DiffMap, f: Section): DiffMap {
    if !f.content then diff
    else if f.newPath.None? then diff.(deleted := diff.deleted + if f.oldPath.Some? then {f.oldPath.value} else {})
    else diff.(files := diff.files[f.newPath.value := HunksOf(f.hunks)],
               renames := if f.renameFrom.Some? then diff.renames[f.renameFrom.value := f.newPath.value] else diff.renames)
  }

  function MeantAll(fs: seq<Section>): DiffMap {
    if fs == [] then Nothing.diff else Meant(MeantAll(fs[..|fs| - 1]), fs[|fs| - 1])
  }

  lemma {:induction false} ReadConcat(r: Reading, xs: seq<string>, ys: seq<string>)
    ensures ReadAll(r, xs + ys) == ReadAll(ReadAll(r, xs), ys)
  {
    if ys == [] {
      assert xs + ys == xs;
    } else {
      assert (xs + ys)[..|xs + ys| - 1] == xs + ys[..|ys| - 1];
      ReadConcat(r, xs, ys[..|ys| - 1]);
    }
  }

  lemma ReadOne(r: Reading, line: string)
    ensures ReadAll(r, [line]) == Read(r, line)
  {
    assert [line][..0] == [];
    assert ReadAll(r, []) == r;
  }

  lemma ReadInert(r: Reading, line: string)
    requires IsInert(line)
    ensures Read(r, line) == r
  {
  }

  lemma {:induction false} ReadHeaders(r: Reading, headers: seq<string>)
    requires forall i :: 0 <= i < |headers| ==> IsInert(headers[i])
    ensures ReadAll(r, headers) == r
  {
    if headers != [] {
      ReadHeaders(r, headers[..|headers| - 1]);
      ReadInert(r, headers[|headers| - 1]);
    }
  }

  lemma PathLineReads(mark: string, prefix: string, path: Option<string>, trailer: string)
    requires |mark| == 3 && (prefix == "a/" || prefix == "b/") && IsTrailer(trailer) && (path.Some? ==> IsPath(path.value))
    ensures var p := Strip(PathLine(mark, prefix, path, trailer)[4..]);
      if path.None? then p == NULL else p != NULL && StripPrefix(p) == path.value
  {
    hide Strip;
    var shown := if path.None? then NULL else prefix + path.value;
    assert PathLine(mark, prefix, path, trailer)[4..] == shown + trailer;
    StripTrailing(shown, trailer);
  }

  lemma ReadPathLine(r: Reading, prefix: string, path: Option<string>, trailer: string)
    requires (prefix == "a/" || prefix == "b/") && IsTrailer(trailer) && (path.Some? ==> IsPath(path.value))
    ensures Read(r, PathLine("---", prefix, path, trailer)) == r.(oldPath := path)
    ensures Read(r, PathLine("+++", prefix, path, trailer)) ==
      if path.None? then r.(current := None, diff := r.diff.(deleted := r.diff.deleted + if IsSet(r.oldPath) then {r.oldPath.value} else {}))
      else r.(current := path, diff := r.diff.(
             files := r.diff.files[path.value := []],
             renames := if IsSet(r.renameFrom) then r.diff.renames[r.renameFrom.value := path.value] else r.diff.renames))
  {
    PathLineReads("---", prefix, path, trailer);
    PathLineReads("+++", prefix, path, trailer);
    hide Strip;
    hide StripPrefix;
    hide ParseHunk;
    var minus, plus := PathLine("---", prefix, path, trailer), PathLine("+++", prefix, path, trailer);
    assert minus[..4] == "--- " && plus[..4] == "+++ ";
    assert minus[0] == '-' && plus[0] == '+';
  }

  lemma ReadRename(r: Reading, path: string, to: string)
    requires IsPath(path)
    ensures ReadAll(r, ["rename from " + path, "rename to " + to]) == r.(renameFrom := Some(path))
  {
    hide Strip;
    hide ParseHunk;
    var from, next := "rename from " + path, "rename to " + to;
    assert from[12..] == path && path + "" == path;
    StripTrailing(path, "");
    assert from[..12] == "rename from " && next[..10] == "rename to ";
    assert from[0] == 'r' == next[0] && next[7] == 't';
    assert Read(r, from) == r.(renameFrom := Some(path));
    assert Read(r.(renameFrom := Some(path)), next) == r.(renameFrom := Some(path));
    assert [from, next][..1] == [from];
    ReadOne(r, from);
  }

  /** A body line that is not a `+++` line changes no more than the old path. */
  lemma ReadPlainBody(r: Reading, line: string)
    requires PlainBody(line)
    ensures Read(r, line) == r.(oldPath := Read(r, line).oldPath)
  {
    hide Strip;
    assert ParseHunk(line).None?;
    hide ParseHunk;
  }

  lemma {:induction false} ReadBody(r: Reading, body: seq<string>)
    requires forall i :: 0 <= i < |body| ==> PlainBody(body[i])
    ensures ReadAll(r, body) == r.(oldPath := ReadAll(r, body).oldPath)
  {
    hide Read;
    if body != [] {
      ReadBody(r, body[..|body| - 1]);
      ReadPlainBody(ReadAll(r, body[..|body| - 1]), body[|body| - 1]);
    }
  }

  /** A printed hunk goes to the open file, or nowhere if none is open. */
  function WithHunk(r: Reading, h: Hunk): Reading {
    if r.current.Some? && r.current.value in r.diff.files then
      r.(diff := r.diff.(files := r.diff.files[r.current.value := r.diff.files[r.current.value] + [h]]))
    else r
  }

  lemma ReadHunkLine(r: Reading, h: Hunk, context: string)
    ensures Read(r, PrintHunk(h, context)) == WithHunk(r, h)
  {
    ParsePrintedHunk(h, context);
    hide ParseHunk;
    hide PrintSide;
    hide Strip;
    assert PrintHunk(h, context)[0] == '@';
  }

  /** All hunks of a section go to its file, in order. */
  lemma {:induction false} ReadHunks(r: Reading, hunks: seq<Printed>)
    requires PlainHunks(hunks) && (r.current.Some? ==> r.current.value in r.diff.files && r.diff.files[r.current.value] == [])
    ensures var after := ReadAll(r, PrintHunks(hunks));
      && after.current == r.current
      && after.diff == if r.current.Some? then r.diff.(files := r.diff.files[r.current.value := HunksOf(hunks)]) else r.diff
  {
    hide Read;
    hide PrintHunk;
    if hunks == [] {
      assert ReadAll(r, []) == r;
      assert r.current.Some? ==> r.diff.files[r.current.value := []] == r.diff.files;
    } else {
      var init, last := hunks[..|hunks| - 1], hunks[|hunks| - 1];
      ReadHunks(r, init);
      var before := ReadAll(r, PrintHunks(init));
      var header := [PrintHunk(last.hunk, last.context)];
      ReadConcat(r, PrintHunks(init) + header, last.body);
      ReadConcat(r, PrintHunks(init), header);
      ReadOne(before, header[0]);
      ReadHunkLine(before, last.hunk, last.context);
      ReadBody(WithHunk(before, last.hunk), last.body);
    }
  }

  function PrintContent(f: Section): seq<string> {
    if f.content then
      [PathLine("---", "a/", f.oldPath, f.trailer), PathLine("+++", "b/", f.newPath, f.trailer)] + PrintHunks(f.hunks)
    else []
  }

  function Named(r: Reading, f: Section): Reading {
    r.(current := None, oldPath := None, renameFrom := f.renameFrom)
  }

  /** The lines before the content of a section set the state back and name what is renamed. */
  lemma ReadHead(r: Reading, f: Section)
    requires WellFormed(f)
    ensures ReadAll(r, PrintSection(f)) == ReadAll(Named(r, f), PrintContent(f))
  {
    var title := ["diff --git " + f.title];
    var rename := if f.renameFrom.Some? then ["rename from " + f.renameFrom.value, "rename to " + f.renameTo] else [];
    var content := PrintContent(f);
    assert PrintSection(f) == title + f.headers + rename + f.behind + content;
    ReadConcat(r, title + f.headers + rename + f.behind, content);
    ReadConcat(r, title + f.headers + rename, f.behind);
    ReadConcat(r, title + f.headers, rename);
    ReadConcat(r, title, f.headers);
    var entered := r.(current := None, oldPath := None, renameFrom := None);
    ReadOne(r, title[0]);
    assert title[0][..11] == "diff --git ";
    assert Read(r, title[0]) == entered;
    ReadHeaders(entered, f.headers);
    if f.renameFrom.Some? {
      ReadRename(entered, f.renameFrom.value, f.renameTo);
    }
    ReadHeaders(Named(r, f), f.behind);
    hide Read;
    hide PathLine;
    assert ReadAll(r, title + f.headers + rename) == Named(r, f) by {
      assert ReadAll(entered, []) == entered;
    }
  }

  /** What has been read when the hunks of a section begin. */
  function Opened(r: Reading, f: Section): Reading {
    if f.newPath.None? then
      r.(current := None, oldPath := f.oldPath, renameFrom := f.renameFrom,
         diff := r.diff.(deleted := r.diff.deleted + if f.oldPath.Some? then {f.oldPath.value} else {}))
    else
      r.(current := f.newPath, oldPath := f.oldPath, renameFrom := f.renameFrom, diff := r.diff.(
           files := r.diff.files[f.newPath.value := []],
           renames := if f.renameFrom.Some? then r.diff.renames[f.renameFrom.value := f.newPath.value] else r.diff.renames))
  }

  lemma ReadUpToHunks(r: Reading, f: Section)
    requires WellFormed(f) && f.content
    ensures ReadAll(r, PrintSection(f)) == ReadAll(Opened(r, f), PrintHunks(f.hunks))
  {
    ReadHead(r, f);
    var named := Named(r, f);
    var minus, plus := PathLine("---", "a/", f.oldPath, f.trailer), PathLine("+++", "b/", f.newPath, f.trailer);
    ReadConcat(named, [minus, plus], PrintHunks(f.hunks));
    assert [minus, plus][..1] == [minus];
    ReadOne(named, minus);
    ReadPathLine(named, "a/", f.oldPath, f.trailer);
    ReadPathLine(named.(oldPath := f.oldPath), "b/", f.newPath, f.trailer);
    assert ReadAll(named, [minus, plus]) == Opened(r, f);
  }

  // ---- What is a hunk header --------------------------------------------------------------------------------------

  /** Digits that spell `n`. */
  ghost predicate Spells(s: string, n: nat) {
    s != "" && AllDigits(s) && ValueOf(s) == n
  }

  /** One side: a number, and a count if it is spelt. */
  ghost predicate SpellsSide(s: string, start: nat, count: nat) {
    || (Spells(s, start) && count == 1)
    || exists a, b :: s == a + "," + b && Spells(a, start) && Spells(b, count)
  }

  lemma SideHasForm(line: string, i: nat)
    requires i <= |line| && ParseSide(line, i).Some?
    ensures var side := ParseSide(line, i).value; SpellsSide(line[i..side.end], side.start, side.count)
  {
    var side := ParseSide(line, i).value;
    var k := DigitsEnd(line, i);
    DigitsOnly(line, i);
    if side.end != k {
      DigitsOnly(line, k + 1);
      assert line[i..side.end] == line[i..k] + "," + line[k + 1..side.end];
      assert Spells(line[i..k], side.start) && Spells(line[k + 1..side.end], side.count);
    }
  }

  lemma WordStands(line: string, i: nat, word: string)
    requires HasAt(line, i, word)
    ensures i + |word| <= |line| && line[i..i + |word|] == word
  {
    assert line[i..][..|word|] == word;
  }

  lemma HunkAt(line: string)
    requires ParseHunk(line).Some?
    ensures |line| >= 4
    ensures var h, l, r := ParseHunk(line).value, ParseSide(line, 4), ParseSide(line, ParseSide(line, 4).value.end + 2);
      && HasAt(line, 0, "@@ -") && l.Some? && l.value.start == h.oldStart && l.value.count == h.oldCount
      && HasAt(line, l.value.end, " +") && r.Some? && r.value.start == h.newStart && r.value.count == h.newCount
      && HasAt(line, r.value.end, " @@")
  {
    hide ParseSide;
  }

  /** A line is read as a hunk header only if it has the form of one, up to the second `@@`. */
  lemma HunkHasForm(line: string) returns (a: string, b: string, rest: string)
    requires ParseHunk(line).Some?
    ensures var h := ParseHunk(line).value;
      line == "@@ -" + a + " +" + b + " @@" + rest && SpellsSide(a, h.oldStart, h.oldCount) && SpellsSide(b, h.newStart, h.newCount)
  {
    hide *;
    HunkAt(line);
    WordStands(line, 0, "@@ -");
    var m := ParseSide(line, 4).value.end;
    WordStands(line, m, " +");
    var n := ParseSide(line, m + 2).value.end;
    WordStands(line, n, " @@");
    SideHasForm(line, 4);
    SideHasForm(line, m + 2);
    SixParts(line, m, n);
    a, b, rest := line[4..m], line[m + 2..n], line[n + 3..];
  }

  lemma SixParts(line: string, m: nat, n: nat)
    requires 4 <= m && m + 2 <= n && n + 3 <= |line|
    requires line[0..4] == "@@ -" && line[m..m + 2] == " +" && line[n..n + 3] == " @@"
    ensures line == "@@ -" + line[4..m] + " +" + line[m + 2..n] + " @@" + line[n + 3..]
  {
  }
}
