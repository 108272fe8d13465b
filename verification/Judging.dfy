/**
  `Checker._judge` of `scripts/check_doc_line_anchors.py`: what file an anchor names, whether
  its lines exist, and whether they hold the symbol the sentence names.
 */
module Judging {
  import opened Common
  import opened Anchors
  import opened Paths
  import Drift

  /** How near the anchor a symbol counts as near. */
  const SYMBOL_WINDOW := 25

  /** How many lines the search for an owner goes up. */
  const CONTAINER_LOOKBACK := 400

  /** Directories of the repository root a missing path may be claimed under. */
  const ROOT_DIRS := ["src", "docs", "scripts", "tests", "viz", "benches", "experiments"]

  /** The tree, and what the patterns match on one of its lines. */
  datatype Tree = Tree(
    isFile: string -> bool,                  // a file at this path, indexed or not
    isDir: string -> bool,
    files: seq<string>,                      // the index
    linesOf: string -> seq<string>,
    mentions: (string, string) -> bool,      // the identifier stands in the line as a word
    defines: (string, string) -> bool,       // the line defines the identifier
    ownerOn: string -> Option<string>,       // the type whose block the line opens
    inSource: string -> bool,                // the identifier stands somewhere in the sources
    isBare: string -> bool)                  // nothing in the line but closing punctuation
  {
    /** A definition of an identifier mentions it. */
    ghost predicate Valid() {
      NoDuplicates(files) && forall name, line :: defines(name, line) ==> mentions(name, line)
    }
  }

  // ---- Which file -----------------------------------------------------------------------------------

  function Ends(path: string): string -> bool {
    (f: string) => EndsWithPath(f, path)
  }

  function Called(path: string): string -> bool {
    (f: string) => BaseName(f) == BaseName(path)
  }

  /** Every file the written path could name: itself, or those it ends, or those of its name. */
  function Resolve(t: Tree, path: string): seq<string> {
    if t.isFile(path) then [path]
    else if Filter(t.files, Ends(path)) != [] then Filter(t.files, Ends(path))
    else Filter(t.files, Called(path))
  }

  ghost predicate CouldName(t: Tree, path: string, f: string) {
    if t.isFile(path) then f == path
    else if exists g :: g in t.files && EndsWithPath(g, path) then f in t.files && EndsWithPath(f, path)
    else f in t.files && BaseName(f) == BaseName(path)
  }

  lemma ResolvesTo(t: Tree, path: string)
    requires t.Valid()
    ensures NoDuplicates(Resolve(t, path))
    ensures forall f :: f in Resolve(t, path) <==> CouldName(t, path, f)
  {
    FilterIn(t.files, Ends(path));
    FilterIn(t.files, Called(path));
    FilterNoDuplicates(t.files, Ends(path));
    FilterNoDuplicates(t.files, Called(path));
    var ends := Filter(t.files, Ends(path));
    if ends != [] {
      assert ends[0] in ends;
    }
  }

  function FirstSlash(path: string): (k: nat)
    ensures k <= |path| && '/' !in path[..k]
    ensures k < |path| ==> path[k] == '/'
  {
    if path == "" || path[0] == '/' then 0
    else
      var k := FirstSlash(path[1..]);
      assert path[..k + 1] == [path[0]] + path[1..][..k];
      k + 1
  }

  /** A claim about this tree that names no file of it. */
  predicate IsMissingPath(t: Tree, path: string) {
    var k := FirstSlash(path);
    k + 1 < |path| && path[..k] in ROOT_DIRS && t.isDir(path[..k])
  }

  // ---- Which symbol -----------------------------------------------------------------------------------

  function FirstColons(s: string, i: nat): (k: nat)
    requires i <= |s|
    ensures i <= k <= |s|
    ensures k < |s| ==> k + 2 <= |s|
    decreases |s| - i
  {
    if i + 2 > |s| then |s| else if s[i..i + 2] == "::" then i else FirstColons(s, i + 1)
  }

  /** `split("::")` */
  function Segments(s: string): (parts: seq<string>)
    ensures parts != []
    decreases |s|
  {
    var k := FirstColons(s, 0);
    if k == |s| then [s] else [s[..k]] + Segments(s[k + 2..])
  }

  function WithoutCall(symbol: string): string {
    if |symbol| >= 2 && symbol[|symbol| - 2..] == "()" then symbol[..|symbol| - 2] else symbol
  }

  /** The last component of a token, without call parentheses. */
  function BaseOf(symbol: string): string {
    var parts := Segments(WithoutCall(symbol));
    parts[|parts| - 1]
  }

  /** The container a qualified token names. */
  function QualifierOf(symbol: string): Option<string> {
    if |Segments(symbol)| > 1 && Segments(symbol)[0] != "" then Some(Segments(symbol)[0]) else None
  }

  // ---- Where it is defined -------------------------------------------------------------------------------

  /** The owner named on the nearest of the lines from `n` up to, but not including, `low`. */
  function NearestOwner(t: Tree, lines: seq<string>, n: nat, low: nat): Option<string>
    requires low <= n <= |lines|
  {
    if n == low then None
    else if t.ownerOn(lines[n - 1]).Some? then t.ownerOn(lines[n - 1])
    else NearestOwner(t, lines, n - 1, low)
  }

  function Lowest(n: nat): nat {
    if n > CONTAINER_LOOKBACK then n - CONTAINER_LOOKBACK else 0
  }

  method ContainerOf(t: Tree, lines: seq<string>, definition: nat) returns (container: Option<string>)
    requires definition <= |lines|
    ensures container == NearestOwner(t, lines, definition, Lowest(definition))
  {
    for n := definition downto Lowest(definition)
      invariant NearestOwner(t, lines, definition, Lowest(definition)) == NearestOwner(t, lines, n, Lowest(definition))
    {
      if t.ownerOn(lines[n]).Some? {
        return t.ownerOn(lines[n]);
      }
    }
    return None;
  }

  predicate DefinesAt(t: Tree, lines: seq<string>, name: string, n: int) {
    1 <= n <= |lines| && t.defines(name, lines[n - 1])
  }

  predicate MentionsAt(t: Tree, lines: seq<string>, name: string, n: int) {
    1 <= n <= |lines| && t.mentions(name, lines[n - 1])
  }

  ghost predicate Owned(t: Tree, lines: seq<string>, name: string, container: Option<string>, n: int) {
    && DefinesAt(t, lines, name, n)
    && container.Some? && NearestOwner(t, lines, n, Lowest(n)) == container
  }

  /** Line `n` defines `name`; if some definition is owned by the container asked for, only such count. */
  ghost predicate IsDefinition(t: Tree, lines: seq<string>, name: string, container: Option<string>, n: int) {
    && DefinesAt(t, lines, name, n)
    && ((exists m :: Owned(t, lines, name, container, m)) ==> Owned(t, lines, name, container, n))
  }

  ghost predicate Rising(ns: seq<nat>) {
    forall i, j :: 0 <= i < j < |ns| ==> ns[i] < ns[j]
  }

  method DefinitionLines(t: Tree, lines: seq<string>, name: string, container: Option<string>) returns (hits: seq<nat>)
    ensures Rising(hits) && forall n: nat :: n in hits <==> IsDefinition(t, lines, name, container, n)
  {
    hits := [];
    for n := 0 to |lines|
      invariant Rising(hits) && forall m: nat :: m in hits <==> m <= n && DefinesAt(t, lines, name, m)
    {
      if t.defines(name, lines[n]) {
        forall i | 0 <= i < |hits| ensures hits[i] < n + 1 {
          assert hits[i] in hits;
        }
        hits := hits + [n + 1];
      }
    }
    if container.Some? && hits != [] {
      var owned := OwnedOnes(t, lines, name, container, hits);
      if owned != [] {
        assert owned[0] in owned;
        return owned;
      }
    }
    forall m: int ensures !Owned(t, lines, name, container, m) {
      if DefinesAt(t, lines, name, m) {
        assert m as nat in hits;
      }
    }
  }

  method OwnedOnes(t: Tree, lines: seq<string>, name: string, container: Option<string>, hits: seq<nat>) returns (owned: seq<nat>)
    requires container.Some? && Rising(hits) && forall n: nat :: n in hits <==> DefinesAt(t, lines, name, n)
    ensures Rising(owned) && forall n: nat :: n in owned <==> Owned(t, lines, name, container, n)
  {
    owned := [];
    for i := 0 to |hits|
      invariant Rising(owned)
      invariant forall n: nat :: n in owned <==> n in hits[..i] && Owned(t, lines, name, container, n)
    {
      assert hits[..i + 1] == hits[..i] + [hits[i]];
      assert hits[i] in hits;
      var owner := ContainerOf(t, lines, hits[i]);
      if owner == container {
        forall k | 0 <= k < |owned| ensures owned[k] < hits[i] {
          assert owned[k] in owned;
          var m :| 0 <= m < i && hits[..i][m] == owned[k];
          assert hits[m] < hits[i];
        }
        owned := owned + [hits[i]];
      }
    }
    assert hits[..|hits|] == hits;
  }

  // ---- The lines an anchor cites -----------------------------------------------------------------------------

  function LastLine(a: Anchor): nat {
    if a.end.Some? then a.end.value else a.start
  }

  predicate IsReversed(a: Anchor) {
    a.end.Some? && a.end.value < a.start
  }

  predicate IsBeyond(lines: seq<string>, a: Anchor) {
    a.start > |lines| || LastLine(a) > |lines|
  }

  /** `lines[lo:hi]`, for `lo` possibly -1: that is the last line. */
  function Slice(lines: seq<string>, lo: int, hi: nat): seq<string>
    requires -1 <= lo && hi <= |lines|
  {
    var from := if lo >= 0 then lo else if lines == [] then 0 else |lines| - 1;
    if from <= hi then lines[from..hi] else []
  }

  function CitedLines(lines: seq<string>, a: Anchor): seq<string>
    requires !IsBeyond(lines, a)
  {
    Slice(lines, a.start - 1, LastLine(a))
  }

  function WindowLines(lines: seq<string>, a: Anchor): seq<string>
    requires !IsBeyond(lines, a)
  {
    var lo: int := a.start - 1 - SYMBOL_WINDOW;
    var hi := a.start + SYMBOL_WINDOW;
    Slice(lines, if lo > 0 then lo else 0, if hi < |lines| then hi else |lines|)
  }

  predicate Mentioned(t: Tree, name: string, lines: seq<string>) {
    exists i :: 0 <= i < |lines| && t.mentions(name, lines[i])
  }

  // ---- The judgement -----------------------------------------------------------------------------------------

  /** The anchor with its target and verdict, the line of a range miss, and whether the range is bare. */
  datatype Judgement = Judgement(anchor: Anchor, rangeMiss: Option<nat>, bare: bool) {

    predicate IsViolation(strictSymbols: bool) {
      || anchor.status in {Missing, OutOfRange, RangeOrder, SymbolMoved}
      || rangeMiss.Some?
      || (strictSymbols && (anchor.status in {SymbolFar, SymbolForeign} || bare))
    }
  }

  predicate NamesSymbol(a: Anchor) {
    a.symbol.Some? && a.symbol.value != ""
  }

  /** The first definition, or the first mention if there is none. */
  ghost predicate IsHint(t: Tree, lines: seq<string>, symbol: string, n: int) {
    var name, container := BaseOf(symbol), QualifierOf(symbol);
    if exists m :: IsDefinition(t, lines, name, container, m) then
      IsDefinition(t, lines, name, container, n) && forall m :: IsDefinition(t, lines, name, container, m) ==> n <= m
    else
      MentionsAt(t, lines, name, n) && forall m :: MentionsAt(t, lines, name, m) ==> n <= m
  }

  /** Rules C and E, for a symbol and lines that exist. */
  ghost predicate SymbolJudged(t: Tree, lines: seq<string>, a: Anchor, j: Judgement)
    requires !IsBeyond(lines, a) && NamesSymbol(a)
  {
    var name := BaseOf(a.symbol.value);
    && (j.anchor.status == Ok <==> Mentioned(t, name, WindowLines(lines, a)))
    && (j.anchor.status in {Ok, SymbolFar} <==> Mentioned(t, name, lines))
    && (j.anchor.status == SymbolMoved <==> !Mentioned(t, name, lines) && t.inSource(name))
    && j.anchor.status in {Ok, SymbolFar, SymbolMoved, SymbolForeign}
    && (j.rangeMiss.Some? <==> Mentioned(t, name, lines) && !Mentioned(t, name, CitedLines(lines, a)))
    && (j.rangeMiss.Some? ==> IsHint(t, lines, a.symbol.value, j.rangeMiss.value))
  }

  /** Rules B, F, C and E, once the file is known. */
  ghost predicate Placed(t: Tree, lines: seq<string>, a: Anchor, j: Judgement) {
    && (j.anchor.status == RangeOrder <==> IsReversed(a))
    && (j.anchor.status == OutOfRange <==> !IsReversed(a) && IsBeyond(lines, a))
    && (IsReversed(a) || IsBeyond(lines, a) ==> j.rangeMiss.None? && !j.bare)
    && (!IsReversed(a) && !IsBeyond(lines, a) ==>
         && (j.bare <==> CitedLines(lines, a) != [] && forall line :: line in CitedLines(lines, a) ==> t.isBare(line))
         && (if NamesSymbol(a) then SymbolJudged(t, lines, a, j) else j.anchor.status == Ok && j.rangeMiss.None?))
  }

  ghost predicate OnlyName(t: Tree, path: string, f: string) {
    forall g :: CouldName(t, path, g) <==> g == f
  }

  /** The verdict, in the program's order: path, range, symbol. */
  method Judge(t: Tree, a: Anchor) returns (j: Judgement)
    requires t.Valid()
    ensures j.anchor == a.(target := j.anchor.target, status := j.anchor.status)
    ensures (forall f :: !CouldName(t, a.path, f)) ==>
      j == Judgement(a.(status := if IsMissingPath(t, a.path) then Missing else External), None, false)
    ensures (exists f, g :: f != g && CouldName(t, a.path, f) && CouldName(t, a.path, g)) ==>
      j == Judgement(a.(status := AmbiguousPath), None, false)
    ensures forall f :: OnlyName(t, a.path, f) ==> j.anchor.target == Some(f) && Placed(t, t.linesOf(f), a, j)
  {
    hide Placed;
    hide IsMissingPath;
    ResolvesTo(t, a.path);
    var candidates := Resolve(t, a.path);
    hide Resolve;
    hide CouldName;
    forall f | OnlyName(t, a.path, f) ensures f in candidates {
      assert CouldName(t, a.path, f);
    }
    assert |candidates| == 1 ==> candidates[0] in candidates && OnlyName(t, a.path, candidates[0]);
    hide OnlyName;
    if candidates == [] {
      return Judgement(a.(status := if IsMissingPath(t, a.path) then Missing else External), None, false);
    }
    assert candidates[0] in candidates;
    if |candidates| > 1 {
      assert candidates[1] in candidates;
      return Judgement(a.(status := AmbiguousPath), None, false);
    }
    j := JudgeLines(t, t.linesOf(candidates[0]), a.(target := Some(candidates[0])));
    PlacedWithTarget(t, t.linesOf(candidates[0]), a, Some(candidates[0]), j);
  }

  lemma PlacedWithTarget(t: Tree, lines: seq<string>, a: Anchor, target: Option<string>, j: Judgement)
    ensures Placed(t, lines, a.(target := target), j) <==> Placed(t, lines, a, j)
  {
    hide IsHint;
    hide Mentioned;
    hide BaseOf;
    hide Slice;
  }

  method JudgeLines(t: Tree, lines: seq<string>, a: Anchor) returns (j: Judgement)
    requires t.Valid()
    ensures j.anchor == a.(status := j.anchor.status) && Placed(t, lines, a, j)
  {
    hide IsHint;
    hide Mentioned;
    hide BaseOf;
    if IsReversed(a) {
      return Judgement(a.(status := RangeOrder), None, false);
    }
    if IsBeyond(lines, a) {
      return Judgement(a.(status := OutOfRange), None, false);
    }
    var cited := CitedLines(lines, a);
    var bare := cited != [] && forall line :: line in cited ==> t.isBare(line);
    if !NamesSymbol(a) {
      return Judgement(a.(status := Ok), None, bare);
    }
    j := JudgeSymbol(t, lines, a, bare);
  }

  method JudgeSymbol(t: Tree, lines: seq<string>, a: Anchor, bare: bool) returns (j: Judgement)
    requires t.Valid() && !IsBeyond(lines, a) && NamesSymbol(a)
    ensures j.anchor == a.(status := j.anchor.status) && j.bare == bare && SymbolJudged(t, lines, a, j)
  {
    var name := BaseOf(a.symbol.value);
    MentionedWithin(t, name, lines, a);
    hide Slice;
    hide IsHint;
    var miss: Option<nat> := None;
    if !Mentioned(t, name, CitedLines(lines, a)) {
      miss := Hint(t, lines, a.symbol.value);
    }
    var status :=
      if Mentioned(t, name, WindowLines(lines, a)) then Ok
      else if Mentioned(t, name, lines) then SymbolFar
      else if t.inSource(name) then SymbolMoved
      else SymbolForeign;
    j := Judgement(a.(status := status), miss, bare);
  }

  lemma MentionedWithin(t: Tree, name: string, lines: seq<string>, a: Anchor)
    requires !IsBeyond(lines, a)
    ensures Mentioned(t, name, CitedLines(lines, a)) || Mentioned(t, name, WindowLines(lines, a)) ==> Mentioned(t, name, lines)
  {
    if i :| 0 <= i < |CitedLines(lines, a)| && t.mentions(name, CitedLines(lines, a)[i]) {
      assert CitedLines(lines, a)[i] in lines;
    }
    if i :| 0 <= i < |WindowLines(lines, a)| && t.mentions(name, WindowLines(lines, a)[i]) {
      assert WindowLines(lines, a)[i] in lines;
    }
  }

  /** Where the symbol is, for the message: nowhere if the file does not mention it. */
  method Hint(t: Tree, lines: seq<string>, symbol: string) returns (hint: Option<nat>)
    requires t.Valid()
    ensures hint.Some? <==> Mentioned(t, BaseOf(symbol), lines)
    ensures hint.Some? ==> IsHint(t, lines, symbol, hint.value)
  {
    var name, container := BaseOf(symbol), QualifierOf(symbol);
    var defs := DefinitionLines(t, lines, name, container);
    hide NearestOwner;
    if defs != [] {
      assert defs[0] in defs;
      assert t.mentions(name, lines[defs[0] - 1]);
      forall m | IsDefinition(t, lines, name, container, m) ensures defs[0] <= m {
        assert m as nat in defs;
      }
      return Some(defs[0]);
    }
    forall m: int ensures !IsDefinition(t, lines, name, container, m) {
      if 1 <= m {
        assert m as nat !in defs;
      }
    }
    for n := 0 to |lines|
      invariant forall m :: m <= n ==> !MentionsAt(t, lines, name, m)
    {
      if t.mentions(name, lines[n]) {
        return Some(n + 1);
      }
    }
    forall i | 0 <= i < |lines| ensures !t.mentions(name, lines[i]) {
      assert !MentionsAt(t, lines, name, i + 1);
    }
    return None;
  }

  // ---- What the gate says ----------------------------------------------------------------------------------------

  /** The named symbol stands in the cited lines. */
  ghost predicate HoldsSymbol(t: Tree, lines: seq<string>, a: Anchor)
    requires !IsBeyond(lines, a)
  {
    NamesSymbol(a) ==> Mentioned(t, BaseOf(a.symbol.value), CitedLines(lines, a))
  }

  /** The named symbol is no item of this repository: neither in the file nor in the sources. */
  ghost predicate IsForeign(t: Tree, lines: seq<string>, a: Anchor) {
    && NamesSymbol(a)
    && !Mentioned(t, BaseOf(a.symbol.value), lines) && !t.inSource(BaseOf(a.symbol.value))
  }

  /**
    The plain gate passes an anchor into a file of the tree exactly when its numbers are in
    order and not beyond the file, and its symbol, if it names one, stands in the cited lines
    or is foreign. The window around the anchor has no say in it.
   */
  lemma PassesIff(t: Tree, lines: seq<string>, a: Anchor, j: Judgement)
    requires Placed(t, lines, a, j)
    ensures !j.IsViolation(false) <==>
      !IsReversed(a) && !IsBeyond(lines, a) && (HoldsSymbol(t, lines, a) || IsForeign(t, lines, a))
  {
    if !IsReversed(a) && !IsBeyond(lines, a) && NamesSymbol(a) {
      MentionedWithin(t, BaseOf(a.symbol.value), lines, a);
    }
    hide Slice;
    hide IsHint;
  }

  /** A symbol that is far although its range holds it: the range reaches beyond the window. */
  lemma FarOnlyInLongRange(t: Tree, lines: seq<string>, a: Anchor, j: Judgement)
    requires Placed(t, lines, a, j) && a.start >= 1 && j.anchor.status == SymbolFar && j.rangeMiss.None?
    ensures a.end.Some? && a.end.value > a.start + SYMBOL_WINDOW
  {
    hide IsHint;
    var name, cited := BaseOf(a.symbol.value), CitedLines(lines, a);
    var i :| 0 <= i < |cited| && t.mentions(name, cited[i]);
    if a.start - 1 + i < a.start + SYMBOL_WINDOW {
      InWindow(lines, a, a.start - 1 + i);
    }
  }

  lemma InWindow(lines: seq<string>, a: Anchor, at: nat)
    requires !IsBeyond(lines, a) && a.start - 1 <= at < a.start + SYMBOL_WINDOW && at < |lines|
    ensures lines[at] in WindowLines(lines, a)
  {
    var lo := if a.start - 1 - SYMBOL_WINDOW > 0 then a.start - 1 - SYMBOL_WINDOW else 0;
    assert WindowLines(lines, a)[at - lo] == lines[at];
  }

  /** An anchor the drift mode judges cites lines that exist, in order, if and only if its first line is not 0. */
  lemma LiveIsInFile(t: Tree, lines: seq<string>, a: Anchor, j: Judgement)
    requires Placed(t, lines, a, j) && IsLive(j.anchor)
    ensures Drift.InFile(lines, a) <==> a.start >= 1
  {
  }

  /** Rule B does not look for line 0: such an anchor passes every rule, although no file has that line. */
  lemma LineZeroPasses(t: Tree, lines: seq<string>, a: Anchor, j: Judgement)
    requires a.start == 0 && a.end.None? && a.symbol.None? && Placed(t, lines, a, j)
    ensures j.anchor.status == Ok && !j.IsViolation(true) && !Drift.InFile(lines, a)
  {
  }

  // ---- In terms of names, lines and distances -----------------------------------------------------------

  /** `a::b::c` */
  function JoinSegments(parts: seq<string>): string
    requires parts != []
  {
    if |parts| == 1 then parts[0] else parts[0] + ("::" + JoinSegments(parts[1..]))
  }

  ghost predicate NoColons(parts: seq<string>) {
    forall i :: 0 <= i < |parts| ==> ':' !in parts[i]
  }

  lemma {:induction false} FirstColonsBehind(a: string, rest: string, i: nat)
    requires ':' !in a && i <= |a|
    ensures FirstColons(a, i) == |a|
    ensures FirstColons(a + ("::" + rest), i) == |a|
    decreases |a| - i
  {
    var s := a + ("::" + rest);
    if i < |a| {
      assert a[i] != ':' && s[i] == a[i];
      assert i + 2 <= |a| ==> a[i..i + 2][0] == a[i];
      assert s[i..i + 2][0] == s[i];
      FirstColonsBehind(a, rest, i + 1);
    } else {
      assert s[i..i + 2] == "::";
    }
  }

  /** Splitting undoes joining. */
  lemma {:induction false} SegmentsOfJoin(parts: seq<string>)
    requires parts != [] && NoColons(parts)
    ensures Segments(JoinSegments(parts)) == parts
  {
    var s := JoinSegments(parts);
    if |parts| == 1 {
      FirstColonsBehind(parts[0], "", 0);
    } else {
      var rest := JoinSegments(parts[1..]);
      FirstColonsBehind(parts[0], rest, 0);
      assert s[..|parts[0]|] == parts[0] && s[|parts[0]| + 2..] == rest;
      SegmentsOfJoin(parts[1..]);
      assert parts == [parts[0]] + parts[1..];
    }
  }

  lemma {:induction false} JoinEndsWithLast(parts: seq<string>)
    requires parts != [] && parts[|parts| - 1] != ""
    ensures var s, last := JoinSegments(parts), parts[|parts| - 1];
      s != "" && s[|s| - 1] == last[|last| - 1]
  {
    if |parts| > 1 {
      assert parts[1..][|parts| - 2] == parts[|parts| - 1];
      JoinEndsWithLast(parts[1..]);
    }
  }

  /** The identifier of a token is its last component, with or without call parentheses; its container is the first. */
  lemma SymbolParts(parts: seq<string>)
    requires parts != [] && NoColons(parts) && parts[|parts| - 1] != "" && ')' !in parts[|parts| - 1]
    ensures var s, last := JoinSegments(parts), parts[|parts| - 1];
      && BaseOf(s) == last && BaseOf(s + "()") == last
      && (QualifierOf(s) == if |parts| > 1 && parts[0] != "" then Some(parts[0]) else None)
  {
    var s := JoinSegments(parts);
    SegmentsOfJoin(parts);
    JoinEndsWithLast(parts);
    hide Segments;
    hide JoinSegments;
    CallIsDropped(s);
  }

  lemma CallIsDropped(s: string)
    ensures WithoutCall(s + "()") == s
    ensures s != "" && s[|s| - 1] != ')' ==> WithoutCall(s) == s
  {
    assert (s + "()")[|s + "()"| - 2..] == "()" && (s + "()")[..|s + "()"| - 2] == s;
    if |s| >= 2 {
      assert s[|s| - 2..][1] == s[|s| - 1];
    }
  }

  /** A missing path claims a directory of this repository's root, and a file in it. */
  lemma IsMissingPathIff(t: Tree, head: string, tail: string)
    requires '/' !in head
    ensures !IsMissingPath(t, head)
    ensures IsMissingPath(t, head + "/" + tail) <==>
      tail != "" && t.isDir(head) && head in {"src", "docs", "scripts", "tests", "viz", "benches", "experiments"}
  {
    FirstSlashIs(head, head);
    FirstSlashIs(head + "/" + tail, head);
    assert (head + "/" + tail)[..|head|] == head;
  }

  lemma {:induction false} FirstSlashIs(path: string, head: string)
    requires '/' !in head && |head| <= |path| && path[..|head|] == head && (|head| < |path| ==> path[|head|] == '/')
    ensures FirstSlash(path) == |head|
  {
    if head != "" {
      assert path[0] == path[..|head|][0] == head[0];
      assert path[1..][..|head| - 1] == head[1..];
      FirstSlashIs(path[1..], head[1..]);
    }
  }

  function OwnerOnLine(t: Tree, lines: seq<string>, n: int): Option<string> {
    if 1 <= n <= |lines| then t.ownerOn(lines[n - 1]) else None
  }

  /** Line `m` is the nearest at or above line `n` that names an owner, and names `o`. */
  ghost predicate OwnerAt(t: Tree, lines: seq<string>, m: int, n: int, o: string) {
    m <= n && OwnerOnLine(t, lines, m) == Some(o) && forall k :: m < k <= n ==> OwnerOnLine(t, lines, k).None?
  }

  /** The owner of a definition is named on the nearest line at or above it, fewer than 400 lines up. */
  lemma NearestOwnerIs(t: Tree, lines: seq<string>, n: nat, o: string)
    requires n <= |lines|
    ensures NearestOwner(t, lines, n, Lowest(n)) == Some(o) <==> exists m :: n - m < 400 && OwnerAt(t, lines, m, n, o)
  {
    OwnerFrom(t, lines, n, Lowest(n), o);
    assert forall m :: OwnerAt(t, lines, m, n, o) ==> (m > Lowest(n) <==> n - m < 400);
  }

  lemma {:induction false} OwnerFrom(t: Tree, lines: seq<string>, n: nat, low: nat, o: string)
    requires low <= n <= |lines|
    ensures NearestOwner(t, lines, n, low) == Some(o) <==> exists m :: low < m && OwnerAt(t, lines, m, n, o)
  {
    if n > low {
      OwnerFrom(t, lines, n - 1, low, o);
      var here := t.ownerOn(lines[n - 1]);
      assert here == OwnerOnLine(t, lines, n);
      if here.Some? {
        assert here == Some(o) ==> OwnerAt(t, lines, n, n, o);
      } else {
        if m :| low < m && OwnerAt(t, lines, m, n, o) {
          assert OwnerAt(t, lines, m, n - 1, o);
        }
        var above := n - 1;
        if m :| low < m && OwnerAt(t, lines, m, above, o) {
          assert OwnerAt(t, lines, m, n, o);
        }
      }
    }
  }

  ghost predicate MentionedFrom(t: Tree, name: string, lines: seq<string>, lo: int, hi: int) {
    exists n :: lo <= n <= hi && MentionsAt(t, lines, name, n)
  }

  /** The cited lines are those from the first number to the last, the window those at most 25 lines from the first. */
  lemma LinesAreNumbers(t: Tree, name: string, lines: seq<string>, a: Anchor)
    requires !IsBeyond(lines, a) && a.start >= 1
    ensures Mentioned(t, name, CitedLines(lines, a)) <==>
      MentionedFrom(t, name, lines, a.start, if a.end.Some? then a.end.value else a.start)
    ensures Mentioned(t, name, WindowLines(lines, a)) <==> MentionedFrom(t, name, lines, a.start - 25, a.start + 25)
    ensures Mentioned(t, name, lines) <==> MentionedFrom(t, name, lines, 1, |lines|)
  {
    SliceMentions(t, name, lines, a.start - 1, LastLine(a));
    var lo := if a.start - 1 - SYMBOL_WINDOW > 0 then a.start - 1 - SYMBOL_WINDOW else 0;
    var hi := if a.start + SYMBOL_WINDOW < |lines| then a.start + SYMBOL_WINDOW else |lines|;
    SliceMentions(t, name, lines, lo, hi);
    SliceMentions(t, name, lines, 0, |lines|);
    assert lines[0..|lines|] == lines;
    assert MentionedFrom(t, name, lines, lo + 1, hi) <==> MentionedFrom(t, name, lines, a.start - 25, a.start + 25);
  }

  lemma SliceMentions(t: Tree, name: string, lines: seq<string>, lo: nat, hi: nat)
    requires hi <= |lines|
    ensures Mentioned(t, name, Slice(lines, lo, hi)) <==> MentionedFrom(t, name, lines, lo + 1, hi)
  {
    var part := Slice(lines, lo, hi);
    if i :| 0 <= i < |part| && t.mentions(name, part[i]) {
      assert MentionsAt(t, lines, name, lo + 1 + i);
    }
    if n :| lo + 1 <= n <= hi && MentionsAt(t, lines, name, n) {
      assert part[n - 1 - lo] == lines[n - 1];
    }
  }

  /**
    The gate in plain numbers: an anchor passes if and only if its first line is not behind
    the file, a range is in order and ends within it, and its symbol, if it names one, is
    mentioned on a cited line, or nowhere in the file and the sources.
   */
  lemma PassesByNumbers(t: Tree, lines: seq<string>, a: Anchor, j: Judgement)
    requires Placed(t, lines, a, j) && a.start >= 1
    ensures !j.IsViolation(false) <==>
      && a.start <= |lines| && (a.end.Some? ==> a.start <= a.end.value <= |lines|)
      && (a.symbol.Some? && a.symbol.value != "" ==>
           var name := BaseOf(a.symbol.value);
           || MentionedFrom(t, name, lines, a.start, if a.end.Some? then a.end.value else a.start)
           || (!MentionedFrom(t, name, lines, 1, |lines|) && !t.inSource(name)))
  {
    PassesIff(t, lines, a, j);
    if !IsReversed(a) && !IsBeyond(lines, a) && NamesSymbol(a) {
      LinesAreNumbers(t, BaseOf(a.symbol.value), lines, a);
    }
    hide Placed;
    hide MentionedFrom;
    hide Mentioned;
    hide BaseOf;
  }

  /** What fails: always a path, a range or a symbol that is wrong; under the strict flag the two notes on symbols and a bare range as well. */
  lemma ViolationsAre(j: Judgement)
    ensures j.IsViolation(false) <==>
      || j.anchor.status == Missing || j.anchor.status == RangeOrder || j.anchor.status == OutOfRange
      || j.anchor.status == SymbolMoved || j.rangeMiss.Some?
    ensures j.IsViolation(true) <==>
      j.IsViolation(false) || j.anchor.status == SymbolFar || j.anchor.status == SymbolForeign || j.bare
  {
  }

  /** Which anchors take part in the comparison of revisions: those into a file of the tree whose lines exist and whose symbol has not moved. */
  lemma LiveIff(t: Tree, lines: seq<string>, a: Anchor, j: Judgement)
    requires Placed(t, lines, a, j) && j.anchor.target.Some?
    ensures IsLive(j.anchor) <==> !IsReversed(a) && !IsBeyond(lines, a) && j.anchor.status != SymbolMoved
    ensures IsLive(j.anchor) <==> j.anchor.status in {Ok, SymbolFar, SymbolForeign}
    ensures forall b: Anchor :: b.target.None? || b.status == Frozen ==> !IsLive(b)
  {
    hide SymbolJudged;
    if !IsReversed(a) && !IsBeyond(lines, a) && NamesSymbol(a) {
      StatusOfSymbol(t, lines, a, j);
    }
  }

  lemma StatusOfSymbol(t: Tree, lines: seq<string>, a: Anchor, j: Judgement)
    requires !IsBeyond(lines, a) && NamesSymbol(a) && SymbolJudged(t, lines, a, j)
    ensures j.anchor.status in {Ok, SymbolFar, SymbolMoved, SymbolForeign}
  {
  }
}
