/**
  Who owns a line, and where a launch statement ends: `owners`, `owner_of`, `resolve_window`
  and `statement_end` of `scripts/check_cuda_launch_returns.py`.
 */
module Launches {
  import opened Common
  import opened Text

  // ---- Owners --------------------------------------------------------------------------

  /** A function or macro body, from line `start` to line `end` (both 0-based, both included). */
  datatype Owner = Owner(start: nat, end: nat, name: string) {
    ghost predicate Holds(line: int) {
      start <= line <= end
    }
  }

  /** What a line of code text opens, given what the two patterns match on it. */
  datatype Opening = Nothing | Macro(name: string) | OneLiner(name: string) | Definition(name: string)

  /** The names the macro and function patterns capture at the start of a line. */
  datatype Patterns = Patterns(macroName: string -> Option<string>, functionName: string -> Option<string>)

  predicate EndsWith(s: string, c: char) {
    s != "" && s[|s| - 1] == c
  }

  predicate StartsComment(s: string) {
    |s| >= 2 && s[0] == '/' && (s[1] == '/' || s[1] == '*')
  }

  function OpeningOf(line: string, p: Patterns): Opening {
    if p.macroName(line).Some? then Macro(p.macroName(line).value)
    else if line == "" || IsSpace(line[0]) then Nothing
    else if p.functionName(line).None? || StartsComment(StripLeft(line)) then Nothing
    else if EndsWith(StripRight(line), ';') then Nothing
    else if '}' in line then OneLiner(p.functionName(line).value)
    else Definition(p.functionName(line).value)
  }

  predicate Continues(line: string) {
    EndsWith(StripRight(line), '\\')
  }

  /** The body that opens on line `i` ends on line `e`. */
  ghost predicate BodyEnds(lines: seq<string>, p: Patterns, i: nat, e: nat)
    requires i < |lines|
  {
    match OpeningOf(lines[i], p)
    case Nothing => false
    case Macro(_) =>
      && i <= e <= |lines| && (forall j :: i <= j < e ==> Continues(lines[j]))
      && (e < |lines| ==> !Continues(lines[e]))
    case OneLiner(_) => e == i
    case Definition(_) =>
      && i <= e < |lines| && (forall j :: i < j < e ==> lines[j] != "}")
      && ((i < e && lines[e] == "}") || (e == |lines| - 1 && (i < e ==> lines[e] != "}")))
  }

  /** Ordered, pairwise disjoint intervals. */
  ghost predicate Disjoint(found: seq<Owner>) {
    && (forall a :: 0 <= a < |found| ==> found[a].start <= found[a].end)
    && (forall a, b :: 0 <= a < b < |found| ==> found[a].end < found[b].start)
  }

  /** The owners found in the lines before `i`: each a body, and no opening line left without one. */
  ghost predicate OwnersBefore(lines: seq<string>, p: Patterns, found: seq<Owner>, i: nat) {
    && Disjoint(found)
    && (forall a :: 0 <= a < |found| ==>
         && found[a].start < |lines| && found[a].end < i
         && BodyEnds(lines, p, found[a].start, found[a].end)
         && OpeningOf(lines[found[a].start], p).name == found[a].name)
    && (forall j :: 0 <= j < i && j < |lines| && OpeningOf(lines[j], p) != Nothing ==> exists a :: 0 <= a < |found| && found[a].Holds(j))
  }

  method Owners(lines: seq<string>, p: Patterns) returns (found: seq<Owner>)
    ensures OwnersBefore(lines, p, found, |lines| + 1)
  {
    found := [];
    var i, n := 0, |lines|;
    assert OwnersBefore(lines, p, found, 0);
    hide OwnersBefore;
    hide StripLeft;
    hide StripRight;
    hide IsSpace;
    while i < n
      invariant i <= n + 1
      invariant OwnersBefore(lines, p, found, i)
    {
      var line := lines[i];
      if p.macroName(line).Some? {
        var j := MacroEnd(lines, i);
        OneMoreOwner(lines, p, found, i, Owner(i, j, p.macroName(line).value));
        found := found + [Owner(i, j, p.macroName(line).value)];
        i := j + 1;
        continue;
      }
      if line != "" && !IsSpace(line[0]) {
        if p.functionName(line).Some? && !StartsComment(StripLeft(line)) {
          if EndsWith(StripRight(line), ';') {
            NoOwner(lines, p, found, i);
            i := i + 1;
            continue;
          }
          if '}' in line {
            OneMoreOwner(lines, p, found, i, Owner(i, i, p.functionName(line).value));
            found := found + [Owner(i, i, p.functionName(line).value)];
            i := i + 1;
            continue;
          }
          var j := BodyEnd(lines, i);
          var end := if j <= n - 1 then j else n - 1;
          OneMoreOwner(lines, p, found, i, Owner(i, end, p.functionName(line).value));
          found := found + [Owner(i, end, p.functionName(line).value)];
          OwnersUpTo(lines, p, found, end + 1, j + 1);
          i := j + 1;
          continue;
        }
      }
      NoOwner(lines, p, found, i);
      i := i + 1;
    }
    OwnersUpTo(lines, p, found, i, n + 1);
  }

  /** The first line at or behind `i` that no backslash continues. */
  method MacroEnd(lines: seq<string>, i: nat) returns (j: nat)
    requires i < |lines|
    ensures i <= j <= |lines| && (forall k :: i <= k < j ==> Continues(lines[k])) && (j < |lines| ==> !Continues(lines[j]))
  {
    j := i;
    while j < |lines| && Continues(lines[j])
      invariant i <= j <= |lines| && forall k :: i <= k < j ==> Continues(lines[k])
    {
      j := j + 1;
    }
  }

  /** The first line behind `i` that is a closing brace. */
  method BodyEnd(lines: seq<string>, i: nat) returns (j: nat)
    requires i < |lines|
    ensures i < j <= |lines| && (forall k :: i < k < j ==> lines[k] != "}") && (j < |lines| ==> lines[j] == "}")
  {
    j := i + 1;
    while j < |lines| && lines[j] != "}"
      invariant i + 1 <= j <= |lines| && forall k :: i < k < j ==> lines[k] != "}"
    {
      j := j + 1;
    }
  }

  lemma OneMoreOwner(lines: seq<string>, p: Patterns, found: seq<Owner>, i: nat, o: Owner)
    requires i < |lines| && OwnersBefore(lines, p, found, i)
    requires o.start == i <= o.end && BodyEnds(lines, p, i, o.end) && OpeningOf(lines[i], p).name == o.name
    ensures OwnersBefore(lines, p, found + [o], o.end + 1)
  {
    hide BodyEnds;
    hide OpeningOf;
    var more := found + [o];
    forall j | 0 <= j < o.end + 1 && j < |lines| && OpeningOf(lines[j], p) != Nothing ensures exists a :: 0 <= a < |more| && more[a].Holds(j) {
      if j < i {
        var a :| 0 <= a < |found| && found[a].Holds(j);
        assert more[a].Holds(j);
      } else {
        assert more[|found|].Holds(j);
      }
    }
  }

  lemma NoOwner(lines: seq<string>, p: Patterns, found: seq<Owner>, i: nat)
    requires i < |lines| && OwnersBefore(lines, p, found, i) && OpeningOf(lines[i], p) == Nothing
    ensures OwnersBefore(lines, p, found, i + 1)
  {
    hide BodyEnds;
    hide OpeningOf;
  }

  /** Past the last line there is nothing left to own. */
  lemma OwnersUpTo(lines: seq<string>, p: Patterns, found: seq<Owner>, i: nat, k: nat)
    requires OwnersBefore(lines, p, found, i) && i <= k && (i < k ==> i >= |lines|)
    ensures OwnersBefore(lines, p, found, k)
  {
    hide BodyEnds;
    hide OpeningOf;
  }

  // ---- The owner of a line and its window -----------------------------------------------

  /** `found[a]` holds `line`, and no other that does starts later, nor as late and further on. */
  ghost predicate Innermost(found: seq<Owner>, line: int, a: int) {
    && 0 <= a < |found| && found[a].Holds(line)
    && forall b :: 0 <= b < |found| && found[b].Holds(line) ==> found[b].start < found[a].start || (found[b].start == found[a].start && b <= a)
  }

  /** The loop both lookups share: the holder that starts latest. */
  method LatestHolder(found: seq<Owner>, line: nat) returns (own: Option<Owner>, ghost at: nat)
    ensures own.None? ==> forall a :: 0 <= a < |found| ==> !found[a].Holds(line)
    ensures own.Some? ==> Innermost(found, line, at) && own.value == found[at]
  {
    own, at := None, 0;
    for i := 0 to |found|
      invariant own.None? ==> forall a :: 0 <= a < i ==> !found[a].Holds(line)
      invariant own.Some? ==> at < i && Innermost(found[..i], line, at) && own.value == found[at]
    {
      assert found[..i + 1] == found[..i] + [found[i]];
      if found[i].start <= line <= found[i].end && (own.None? || found[i].start >= own.value.start) {
        own, at := Some(found[i]), i;
      }
    }
    assert found[..|found|] == found;
  }

  method OwnerOf(found: seq<Owner>, line: nat) returns (name: string)
    ensures forall a :: Innermost(found, line, a) ==> name == found[a].name
    ensures (forall a :: 0 <= a < |found| ==> !found[a].Holds(line)) ==> name == "?"
  {
    var best, _ := LatestHolder(found, line);
    name := if best.Some? then best.value.name else "?";
  }

  datatype Window = Window(lo: nat, hi: nat)

  /** Where a site's variables are looked for; `n` lines if no body holds the site. */
  method ResolveWindow(found: seq<Owner>, line: nat, n: nat) returns (w: Window)
    ensures (forall a :: 0 <= a < |found| ==> !found[a].Holds(line)) ==> w == Window(0, n)
    ensures forall a :: Innermost(found, line, a) ==> w.hi == found[a].end && OuterStart(found, a, w.lo)
  {
    var own, _ := LatestHolder(found, line);
    if own.None? {
      return Window(0, n);
    }
    var outer := NearestAround(found, own.value);
    w := if outer.Some? then Window(outer.value.start, own.value.end) else Window(own.value.start, own.value.end);
  }

  method NearestAround(found: seq<Owner>, inner: Owner) returns (outer: Option<Owner>)
    ensures outer.None? ==> forall a :: 0 <= a < |found| ==> !Around(found[a], inner)
    ensures outer.Some? ==> outer.value in found && Around(outer.value, inner)
    ensures outer.Some? ==> forall a :: 0 <= a < |found| && Around(found[a], inner) ==> found[a].start <= outer.value.start
  {
    outer := None;
    for i := 0 to |found|
      invariant outer.None? ==> forall a :: 0 <= a < i ==> !Around(found[a], inner)
      invariant outer.Some? ==> outer.value in found && Around(outer.value, inner)
      invariant outer.Some? ==> forall a :: 0 <= a < i && Around(found[a], inner) ==> found[a].start <= outer.value.start
    {
      if found[i].start < inner.start && found[i].end >= inner.end && (outer.None? || found[i].start >= outer.value.start) {
        outer := Some(found[i]);
      }
    }
  }

  /** Where the window of `found[a]` begins: at the nearest body around it, or at its own start if none is. */
  ghost predicate OuterStart(found: seq<Owner>, a: int, lo: int)
    requires 0 <= a < |found|
  {
    if NothingAround(found, a) then lo == found[a].start
    else
      && (exists b :: 0 <= b < |found| && Around(found[b], found[a]) && lo == found[b].start)
      && (forall b :: 0 <= b < |found| && Around(found[b], found[a]) ==> found[b].start <= lo)
  }

  ghost predicate Around(outer: Owner, inner: Owner) {
    outer.start < inner.start && outer.end >= inner.end
  }

  ghost predicate NothingAround(found: seq<Owner>, a: int)
    requires 0 <= a < |found|
  {
    forall b :: 0 <= b < |found| ==> !Around(found[b], found[a])
  }

  /**
    On what `owners` yields there is never a tie to break and never a window to widen: a line
    has at most one owner, and its window is that owner's body.
   */
  lemma OneOwnerPerLine(lines: seq<string>, p: Patterns, found: seq<Owner>, line: int, a: nat)
    requires OwnersBefore(lines, p, found, |lines| + 1) && a < |found| && found[a].Holds(line)
    ensures forall b :: 0 <= b < |found| && found[b].Holds(line) ==> b == a
    ensures Innermost(found, line, a) && NothingAround(found, a)
  {
    hide BodyEnds;
    hide OpeningOf;
    forall b | 0 <= b < |found| && b != a ensures !found[b].Holds(line) && !Around(found[b], found[a]) {
      if b < a {
        assert found[b].end < found[a].start;
      } else {
        assert found[a].end < found[b].start;
      }
    }
  }

  // ---- Where a launch statement ends ------------------------------------------------------

  function Nesting(c: char): int {
    if c == '(' then 1 else if c == ')' then -1 else 0
  }

  /** The parentheses opened and not closed between the launch at (`line`, `col`) and (`i`, `pos`). */
  ghost function Depth(lines: seq<string>, line: nat, col: nat, i: nat, pos: nat): int
    requires InScope(lines, line, col, i, pos)
    decreases i, pos
  {
    if i == line && pos == col then 0
    else if pos > 0 && (i > line || pos > col) then Depth(lines, line, col, i, pos - 1) + Nesting(lines[i][pos - 1])
    else LineEndInScope(lines, line, col, i - 1); Depth(lines, line, col, i - 1, |lines[i - 1]|)
  }

  /** Whether a parenthesis was opened on the way. */
  ghost predicate Started(lines: seq<string>, line: nat, col: nat, i: nat, pos: nat)
    requires InScope(lines, line, col, i, pos)
    decreases i, pos
  {
    if i == line && pos == col then false
    else if pos > 0 && (i > line || pos > col) then Started(lines, line, col, i, pos - 1) || lines[i][pos - 1] == '('
    else LineEndInScope(lines, line, col, i - 1); Started(lines, line, col, i - 1, |lines[i - 1]|)
  }

  /** Positions at or behind the launch; the launch column lies on its line. */
  ghost predicate InScope(lines: seq<string>, line: nat, col: nat, i: nat, pos: nat) {
    line <= i < |lines| && col <= |lines[line]| && pos <= |lines[i]| && (i == line ==> pos >= col)
  }

  lemma LineEndInScope(lines: seq<string>, line: nat, col: nat, i: int)
    requires line <= i < |lines| && col <= |lines[line]|
    ensures InScope(lines, line, col, i, |lines[i]|)
  {
  }

  /** A semicolon at balanced depth, after at least one opening parenthesis. */
  ghost predicate Closes(lines: seq<string>, line: nat, col: nat, i: nat, pos: nat) {
    && InScope(lines, line, col, i, pos) && pos < |lines[i]| && lines[i][pos] == ';'
    && Started(lines, line, col, i, pos) && Depth(lines, line, col, i, pos) == 0
  }

  /** No position before (`i`, `pos`) closes the statement. */
  ghost predicate NoneBefore(lines: seq<string>, line: nat, col: nat, i: nat, pos: nat) {
    forall i': nat, pos': nat :: Closes(lines, line, col, i', pos') ==> i' > i || (i' == i && pos' >= pos)
  }

  /** Whole lines, one behind the other. */
  ghost function Concat(lines: seq<string>): string {
    if lines == [] then "" else Concat(lines[..|lines| - 1]) + lines[|lines| - 1]
  }

  /** The text between the launch and (`i`, `pos`). */
  ghost function Between(lines: seq<string>, line: nat, col: nat, i: nat, pos: nat): string
    requires InScope(lines, line, col, i, pos)
  {
    if i == line then lines[line][col..pos] else lines[line][col..] + Concat(lines[line + 1..i]) + lines[i][..pos]
  }

  lemma OneMoreBetween(lines: seq<string>, line: nat, col: nat, i: nat, pos: nat)
    requires InScope(lines, line, col, i, pos) && pos > 0 && (i > line || pos > col)
    ensures Between(lines, line, col, i, pos) == Between(lines, line, col, i, pos - 1) + [lines[i][pos - 1]]
  {
    assert lines[i][..pos] == lines[i][..pos - 1] + [lines[i][pos - 1]];
  }

  lemma ConcatStep(lines: seq<string>, from: nat, i: nat)
    requires from < i <= |lines|
    ensures Concat(lines[from..i]) == Concat(lines[from..i - 1]) + lines[i - 1]
  {
    var whole := lines[from..i];
    assert whole[..|whole| - 1] == lines[from..i - 1] && whole[|whole| - 1] == lines[i - 1];
  }

  lemma NextLineBetween(lines: seq<string>, line: nat, col: nat, i: nat)
    requires line < i && InScope(lines, line, col, i, 0) && InScope(lines, line, col, i - 1, |lines[i - 1]|)
    ensures Between(lines, line, col, i, 0) == Between(lines, line, col, i - 1, |lines[i - 1]|)
  {
    var last := lines[i - 1];
    assert last[..|last|] == last && lines[i][..0] == "";
    if i - 1 == line {
      assert lines[line + 1..i] == [];
    } else {
      ConcatStep(lines, line + 1, i);
      hide Concat;
    }
  }

  /** The depth and the start are read off the text between. */
  ghost predicate CountsParentheses(lines: seq<string>, line: nat, col: nat, i: nat, pos: nat)
    requires InScope(lines, line, col, i, pos)
  {
    var text := Between(lines, line, col, i, pos);
    && Depth(lines, line, col, i, pos) + multiset(text)[')'] == multiset(text)['(']
    && (Started(lines, line, col, i, pos) <==> '(' in text)
  }

  lemma OneMoreCounted(before: string, c: char)
    ensures var after := multiset(before + [c]);
      && after['('] == multiset(before)['('] + (if c == '(' then 1 else 0)
      && after[')'] == multiset(before)[')'] + (if c == ')' then 1 else 0)
  {
    assert multiset(before + [c]) == multiset(before) + multiset{c};
  }

  lemma DepthStep(lines: seq<string>, line: nat, col: nat, i: nat, pos: nat)
    requires InScope(lines, line, col, i, pos) && pos > 0 && (i > line || pos > col)
    ensures Depth(lines, line, col, i, pos) == Depth(lines, line, col, i, pos - 1) + Nesting(lines[i][pos - 1])
    ensures Started(lines, line, col, i, pos) == (Started(lines, line, col, i, pos - 1) || lines[i][pos - 1] == '(')
  {
  }

  lemma CountsOneMore(lines: seq<string>, line: nat, col: nat, i: nat, pos: nat)
    requires InScope(lines, line, col, i, pos) && pos > 0 && (i > line || pos > col)
    requires CountsParentheses(lines, line, col, i, pos - 1)
    ensures CountsParentheses(lines, line, col, i, pos)
  {
    hide Between;
    hide Depth;
    hide Started;
    var c := lines[i][pos - 1];
    DepthStep(lines, line, col, i, pos);
    OneMoreBetween(lines, line, col, i, pos);
    OneMoreCounted(Between(lines, line, col, i, pos - 1), c);
  }

  lemma CountsNextLine(lines: seq<string>, line: nat, col: nat, i: nat)
    requires line < i && InScope(lines, line, col, i, 0) && InScope(lines, line, col, i - 1, |lines[i - 1]|)
    requires CountsParentheses(lines, line, col, i - 1, |lines[i - 1]|)
    ensures CountsParentheses(lines, line, col, i, 0)
  {
    NextLineBetween(lines, line, col, i);
    assert Depth(lines, line, col, i, 0) == Depth(lines, line, col, i - 1, |lines[i - 1]|);
    assert Started(lines, line, col, i, 0) == Started(lines, line, col, i - 1, |lines[i - 1]|);
  }

  lemma CountsNothing(lines: seq<string>, line: nat, col: nat)
    requires InScope(lines, line, col, line, col)
    ensures CountsParentheses(lines, line, col, line, col)
  {
    assert Between(lines, line, col, line, col) == "";
  }

  /** The depth is the number of opening parentheses less that of closing ones, and it has started once one was opened. */
  lemma {:induction false} DepthIsCount(lines: seq<string>, line: nat, col: nat, i: nat, pos: nat)
    requires InScope(lines, line, col, i, pos)
    ensures CountsParentheses(lines, line, col, i, pos)
    decreases i, pos
  {
    hide CountsParentheses;
    if i == line && pos == col {
      CountsNothing(lines, line, col);
    } else if pos > 0 && (i > line || pos > col) {
      DepthIsCount(lines, line, col, i, pos - 1);
      CountsOneMore(lines, line, col, i, pos);
    } else {
      LineEndInScope(lines, line, col, i - 1);
      DepthIsCount(lines, line, col, i - 1, |lines[i - 1]|);
      CountsNextLine(lines, line, col, i);
    }
  }

  /**
    What ends a launch: a semicolon behind as many closing parentheses as opening ones, and
    at least one of them.
   */
  lemma ClosesIff(lines: seq<string>, line: nat, col: nat, i: nat, pos: nat)
    requires InScope(lines, line, col, i, pos)
    ensures Closes(lines, line, col, i, pos) <==>
      && pos < |lines[i]| && lines[i][pos] == ';'
      && var text := Between(lines, line, col, i, pos); '(' in text && multiset(text)['('] == multiset(text)[')']
  {
    DepthIsCount(lines, line, col, i, pos);
    hide Between;
    hide Depth;
    hide Started;
  }

  /** The line of the first semicolon that closes the statement; `None` is the program's `ValueError`. */
  method StatementEnd(lines: seq<string>, line: nat, col: nat) returns (end: Option<nat>)
    requires line < |lines| && col <= |lines[line]|
    ensures end.Some? ==> exists pos :: Closes(lines, line, col, end.value, pos) && NoneBefore(lines, line, col, end.value, pos)
    ensures end.None? ==> forall i, pos :: !Closes(lines, line, col, i, pos)
  {
    var depth, started := 0, false;
    var i, pos := line, col;
    while i < |lines|
      invariant line <= i <= |lines| && 0 <= pos
      invariant pos == if i == line then col else 0
      invariant i < |lines| ==> InScope(lines, line, col, i, pos)
      invariant i < |lines| ==> depth == Depth(lines, line, col, i, pos) && started == Started(lines, line, col, i, pos)
      invariant NoneBefore(lines, line, col, i, pos)
    {
      var text := lines[i];
      while pos < |text|
        invariant 0 <= pos && InScope(lines, line, col, i, pos)
        invariant depth == Depth(lines, line, col, i, pos) && started == Started(lines, line, col, i, pos)
        invariant NoneBefore(lines, line, col, i, pos)
      {
        var c := text[pos];
        if c == '(' {
          depth := depth + 1;
          started := true;
        } else if c == ')' {
          depth := depth - 1;
        } else if c == ';' && started && depth == 0 {
          return Some(i);
        }
        pos := pos + 1;
      }
      i := i + 1;
      pos := 0;
    }
    return None;
  }

  // ---- What the lines look like ---------------------------------------------------------------------------------------

  /** The last character that is no white space. */
  lemma EndsWithIff(line: string, c: char)
    requires !IsSpace(c)
    ensures EndsWith(StripRight(line), c) <==> exists x, spaces :: line == x + [c] + spaces && AllSpace(spaces)
  {
    if EndsWith(StripRight(line), c) {
      var spaces := StripRightParts(line);
      var t := StripRight(line);
      assert line == t[..|t| - 1] + [c] + spaces;
    }
    if x, spaces :| line == x + [c] + spaces && AllSpace(spaces) {
      StripRightTrailing(x + [c], spaces);
    }
  }

  /** A macro line goes on if it ends in a backslash; a declaration is a line that ends in a semicolon. */
  lemma ContinuesIff(line: string)
    ensures Continues(line) <==> exists x, spaces :: line == x + "\\" + spaces && AllSpace(spaces)
  {
    BackslashIsNoSpace();
    EndsWithIff(line, '\\');
  }

  lemma BackslashIsNoSpace()
    ensures !IsSpace('\\') && !IsSpace(';')
  {
  }

  lemma StartsCommentIff(s: string)
    ensures StartsComment(s) <==> exists rest :: s == "//" + rest || s == "/*" + rest
  {
    if StartsComment(s) {
      assert s == [s[0], s[1]] + s[2..];
    }
  }

  /**
    What a line opens: a macro wherever that pattern matches; else, in column 0 and outside a
    comment, what the function pattern names, unless the line ends in a semicolon: a one-liner
    if a closing brace is on the line, a definition if not.
   */
  lemma OpeningIff(line: string, p: Patterns, name: string)
    ensures OpeningOf(line, p) == Macro(name) <==> p.macroName(line) == Some(name)
    ensures OpeningOf(line, p) in {OneLiner(name), Definition(name)} <==>
      && p.macroName(line).None? && line != "" && !IsSpace(line[0]) && p.functionName(line) == Some(name)
      && !(exists rest :: line == "//" + rest || line == "/*" + rest)
      && !(exists x, spaces :: line == x + ";" + spaces && AllSpace(spaces))
    ensures OpeningOf(line, p) == OneLiner(name) ==> '}' in line
    ensures OpeningOf(line, p) == Definition(name) ==> '}' !in line
  {
    BackslashIsNoSpace();
    EndsWithIff(line, ';');
    StartsCommentIff(line);
    if line != "" && !IsSpace(line[0]) {
      assert StripLeft(line) == line;
    }
    hide StripRight;
    hide StripLeft;
    hide IsSpace;
    hide StartsComment;
    hide EndsWith;
  }
}
