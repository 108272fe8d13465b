/**
  The cfg predicates of `scripts/check_source_layout.py`: the negation stripper and the search
  for `test`, against the meaning of the predicate as a tree.
 */
module CfgPredicate {
  import opened Common
  import opened Text

  // ---- The text ----------------------------------------------------------------------------------

  /** `\w`, over ASCII. */
  predicate IsWord(c: char) {
    '0' <= c <= '9' || 'A' <= c <= 'Z' || 'a' <= c <= 'z' || c == '_'
  }

  /** The first place from `i` on that holds no white space. */
  function SpacesEnd(s: string, i: nat): (k: nat)
    requires i <= |s|
    ensures i <= k <= |s|
    ensures forall j :: i <= j < k ==> IsSpace(s[j])
    ensures k < |s| ==> !IsSpace(s[k])
    decreases |s| - i
  {
    if i < |s| && IsSpace(s[i]) then SpacesEnd(s, i + 1) else i
  }

  /** Where the inside of a `not(` begins that starts at `i` as a word of its own. */
  function NotOpens(s: string, i: nat): (k: Option<nat>)
    requires i <= |s|
    ensures k.Some? ==> i + 4 <= k.value <= |s|
  {
    if i + 3 <= |s| && s[i..i + 3] == "not" && (i == 0 || !IsWord(s[i - 1])) then
      var k := SpacesEnd(s, i + 3);
      if k < |s| && s[k] == '(' then Some(k + 1) else None
    else None
  }

  function Deeper(depth: int, c: char): int {
    depth + (if c == '(' then 1 else 0) - (if c == ')' then 1 else 0)
  }

  /** The place behind the parenthesis that closes the `depth` open ones, or the end. */
  function Close(s: string, j: nat, depth: int): (k: nat)
    requires j <= |s|
    ensures j <= k <= |s|
    decreases |s| - j
  {
    if j < |s| && depth != 0 then Close(s, j + 1, Deeper(depth, s[j])) else j
  }

  /** What is left of `s` from `i` on. */
  function Stripped(s: string, i: nat): string
    requires i <= |s|
    decreases |s| - i
  {
    if i == |s| then ""
    else
      match NotOpens(s, i)
      case None => [s[i]] + Stripped(s, i + 1)
      case Some(k) => Stripped(s, Close(s, k, 1))
  }

  lemma KeepStep(s: string, i: nat)
    requires i < |s| && NotOpens(s, i).None?
    ensures Stripped(s, i) == [s[i]] + Stripped(s, i + 1)
  {
  }

  lemma DropStep(s: string, i: nat)
    requires i < |s| && NotOpens(s, i).Some?
    ensures Stripped(s, i) == Stripped(s, Close(s, NotOpens(s, i).value, 1))
  {
  }

  lemma CloseStep(s: string, j: nat, depth: int)
    requires j < |s| && depth != 0
    ensures Close(s, j, depth) == Close(s, j + 1, Deeper(depth, s[j]))
  {
  }

  lemma CloseStops(s: string, j: nat, depth: int)
    requires j <= |s| && (j == |s| || depth == 0)
    ensures Close(s, j, depth) == j
  {
  }

  method WithoutNegations(pred: string) returns (out: string)
    ensures out == Stripped(pred, 0)
  {
    hide Stripped;
    hide NotOpens;
    hide Close;
    hide Deeper;
    out := "";
    var i := 0;
    while i < |pred|
      invariant i <= |pred| && Stripped(pred, 0) == out + Stripped(pred, i)
    {
      var m := NotOpens(pred, i);
      if m.None? {
        KeepStep(pred, i);
        out := out + [pred[i]];
        i := i + 1;
        continue;
      }
      var depth, j := 1, m.value;
      while j < |pred| && depth != 0
        invariant i < j <= |pred| && Close(pred, m.value, 1) == Close(pred, j, depth)
      {
        CloseStep(pred, j, depth);
        depth := Deeper(depth, pred[j]);
        j := j + 1;
      }
      CloseStops(pred, j, depth);
      DropStep(pred, i);
      i := j;
    }
    NothingLeft(pred);
  }

  lemma NothingLeft(s: string)
    ensures Stripped(s, |s|) == ""
  {
  }

  /** The word `test` stands at `i`. */
  predicate TestAt(s: string, i: nat) {
    i + 4 <= |s| && s[i..i + 4] == "test" && (i == 0 || !IsWord(s[i - 1])) && (i + 4 == |s| || !IsWord(s[i + 4]))
  }

  predicate HasTest(s: string) {
    exists i: nat :: i < |s| && TestAt(s, i)
  }

  predicate IsGate(pred: string) {
    HasTest(Stripped(pred, 0))
  }

  /** The first of the cfg attributes that gates on `test`. */
  method TestGate(preds: seq<string>) returns (gate: Option<nat>)
    ensures gate.None? <==> forall i :: 0 <= i < |preds| ==> !IsGate(preds[i])
    ensures gate.Some? ==> gate.value < |preds| && IsGate(preds[gate.value])
    ensures gate.Some? ==> forall i :: 0 <= i < gate.value ==> !IsGate(preds[i])
  {
    for n := 0 to |preds|
      invariant forall i :: 0 <= i < n ==> !IsGate(preds[i])
    {
      var rest := WithoutNegations(preds[n]);
      if HasTest(rest) {
        return Some(n);
      }
    }
    return None;
  }

  // ---- The meaning -------------------------------------------------------------------------------

  /**
    A predicate: a single option (`test`, `unix`, `feature = "x"`), a negation, with the blanks
    its author put in front of the parenthesis, or a group.
   */
  datatype Cfg = Atom(text: string) | Not(gap: string, inner: Cfg) | All(parts: List) | Any(parts: List)
  datatype List = Nil | Cons(head: Cfg, tail: List)

  function Grouped(word: string, inside: string): string {
    word + ("(" + (inside + ")"))
  }

  function Print(c: Cfg): string {
    match c
    case Atom(text) => text
    case Not(gap, inner) => Grouped("not" + gap, Print(inner))
    case All(parts) => Grouped("all", PrintList(parts))
    case Any(parts) => Grouped("any", PrintList(parts))
  }

  function PrintList(cs: List): string {
    match cs
    case Nil => ""
    case Cons(c, Nil) => Print(c)
    case Cons(c, rest) => Print(c) + ", " + PrintList(rest)
  }

  /** How many parentheses the first `i` characters leave open. */
  function Level(w: string, i: nat): int
    requires i <= |w|
  {
    if i == 0 then 0 else Deeper(Level(w, i - 1), w[i - 1])
  }

  /** Every parenthesis that closes was opened, and every one that opens is closed. */
  ghost predicate Balanced(w: string) {
    Level(w, |w|) == 0 && forall i :: 0 <= i <= |w| ==> Level(w, i) >= 0
  }

  ghost predicate OpensNoNot(text: string) {
    forall i :: 0 <= i <= |text| ==> NotOpens(text, i).None?
  }

  ghost predicate AreSpaces(gap: string) {
    forall i :: 0 <= i < |gap| ==> IsSpace(gap[i])
  }

  /**
    What stands inside a negation is balanced, and no option outside all negations opens a
    `not(` of its own. Options may hold any other text, and parentheses.
   */
  ghost predicate Plain(c: Cfg) {
    match c
    case Atom(text) => OpensNoNot(text)
    case Not(gap, inner) => AreSpaces(gap) && Balanced(Print(inner))
    case All(parts) => PlainList(parts)
    case Any(parts) => PlainList(parts)
  }

  ghost predicate PlainList(cs: List) {
    cs.Cons? ==> Plain(cs.head) && PlainList(cs.tail)
  }

  /** The parentheses of each option balance on their own. */
  ghost predicate OptionsBalance(c: Cfg) {
    match c
    case Atom(text) => Balanced(text)
    case Not(gap, inner) => AreSpaces(gap) && OptionsBalance(inner)
    case All(parts) => AllBalance(parts)
    case Any(parts) => AllBalance(parts)
  }

  ghost predicate AllBalance(cs: List) {
    cs.Cons? ==> OptionsBalance(cs.head) && AllBalance(cs.tail)
  }

  /** Some option that names `test` has no `not` around it. */
  predicate Bare(c: Cfg) {
    match c
    case Atom(text) => HasTest(text)
    case Not(_, _) => false
    case All(parts) => BareList(parts)
    case Any(parts) => BareList(parts)
  }

  predicate BareList(cs: List) {
    cs.Cons? && (Bare(cs.head) || BareList(cs.tail))
  }

  // ---- Parentheses balance ------------------------------------------------------------------------

  /** `w` stands at `i` in `s`. */
  ghost predicate StandsAt(s: string, i: nat, w: string) {
    i + |w| <= |s| && s[i..i + |w|] == w
  }

  lemma StandParts(s: string, i: nat, a: string, b: string)
    requires StandsAt(s, i, a + b)
    ensures StandsAt(s, i, a) && StandsAt(s, i + |a|, b)
  {
    var w := s[i..i + |a + b|];
    assert s[i..i + |a|] == w[..|a|] == a;
    assert s[i + |a|..i + |a| + |b|] == w[|a|..] == b;
  }

  lemma StandsIndex(s: string, i: nat, w: string, k: nat)
    requires StandsAt(s, i, w) && k < |w|
    ensures i + k < |s| && s[i + k] == w[k]
  {
    assert s[i..i + |w|][k] == w[k];
  }

  /** The counter follows the level as long as it stays above the start of the negation. */
  lemma {:induction false} CloseFollows(s: string, i: nat, w: string, k: nat, depth: int)
    requires StandsAt(s, i, w) && k <= |w| && forall j :: 0 <= j < k ==> depth + Level(w, j) != 0
    ensures Close(s, i, depth) == Close(s, i + k, depth + Level(w, k))
  {
    hide Close;
    hide StandsAt;
    if k > 0 {
      CloseFollows(s, i, w, k - 1, depth);
      StandsIndex(s, i, w, k - 1);
      assert i + k - 1 < |s|;
      CloseStep(s, i + k - 1, depth + Level(w, k - 1));
    }
  }

  lemma CloseBalanced(s: string, i: nat, w: string, depth: int)
    requires StandsAt(s, i, w) && Balanced(w) && depth >= 1
    ensures Close(s, i, depth) == Close(s, i + |w|, depth)
  {
    hide Close;
    hide StandsAt;
    hide Level;
    CloseFollows(s, i, w, |w|, depth);
  }

  /** Where the level first falls below the start. */
  lemma {:induction false} FirstBelow(w: string, k: nat) returns (j: nat)
    requires k <= |w| && Level(w, k) < 0
    ensures j <= k && Level(w, j) == -1 && forall m :: 0 <= m < j ==> Level(w, m) >= 0
  {
    if m :| 0 <= m < k && Level(w, m) < 0 {
      j := FirstBelow(w, m);
    } else {
      j := k;
      assert k > 0 && Level(w, k - 1) >= 0;
    }
  }

  /** Where text follows, the scan stops at the parenthesis behind `w` if and only if `w` is balanced. */
  lemma StopsIffBalanced(s: string, i: nat, w: string)
    requires StandsAt(s, i, w) && StandsAt(s, i + |w|, ")") && i + |w| + 1 < |s|
    ensures Close(s, i, 1) == i + |w| + 1 <==> Balanced(w)
  {
    hide StandsAt;
    hide Level;
    hide Close;
    if Balanced(w) {
      CloseBalanced(s, i, w, 1);
      CloseOne(s, i + |w|, ')', 1);
      CloseStops(s, i + |w| + 1, 0);
    } else if k :| 0 <= k <= |w| && Level(w, k) < 0 {
      var j := FirstBelow(w, k);
      CloseFollows(s, i, w, j, 1);
      CloseStops(s, i + j, 0);
    } else {
      CloseFollows(s, i, w, |w|, 1);
      CloseOne(s, i + |w|, ')', 1 + Level(w, |w|));
      CloseStep(s, i + |w| + 1, Level(w, |w|));
    }
  }

  lemma CloseOne(s: string, i: nat, c: char, depth: int)
    requires StandsAt(s, i, [c]) && depth >= 1
    ensures Close(s, i, depth) == Close(s, i + 1, Deeper(depth, c))
  {
    assert s[i] == s[i..i + 1][0];
  }

  lemma {:induction false} LevelOfConcat(a: string, b: string, i: nat)
    requires i <= |b|
    ensures forall k :: 0 <= k <= |a| ==> Level(a + b, k) == Level(a, k)
    ensures Level(a + b, |a| + i) == Level(a, |a|) + Level(b, i)
    decreases i
  {
    forall k | 0 <= k <= |a| ensures Level(a + b, k) == Level(a, k) {
      LevelOfPrefix(a, b, k);
    }
    if i > 0 {
      LevelOfConcat(a, b, i - 1);
      assert (a + b)[|a| + i - 1] == b[i - 1];
    }
  }

  lemma {:induction false} LevelOfPrefix(a: string, b: string, k: nat)
    requires k <= |a|
    ensures Level(a + b, k) == Level(a, k)
  {
    if k > 0 {
      LevelOfPrefix(a, b, k - 1);
    }
  }

  lemma BalancedConcat(a: string, b: string)
    requires Balanced(a) && Balanced(b)
    ensures Balanced(a + b)
  {
    hide Level;
    forall i | 0 <= i <= |a + b| ensures Level(a + b, i) >= 0 {
      LevelOfConcat(a, b, if i <= |a| then 0 else i - |a|);
    }
    LevelOfConcat(a, b, |b|);
  }

  lemma {:induction false} LevelFlat(w: string, i: nat)
    requires i <= |w| && '(' !in w && ')' !in w
    ensures Level(w, i) == 0
  {
    if i > 0 {
      LevelFlat(w, i - 1);
    }
  }

  lemma FlatIsBalanced(w: string)
    requires '(' !in w && ')' !in w
    ensures Balanced(w)
  {
    forall i | 0 <= i <= |w| ensures Level(w, i) == 0 {
      LevelFlat(w, i);
    }
  }

  lemma BalancedGroup(word: string, inside: string)
    requires '(' !in word && ')' !in word && Balanced(inside)
    ensures Balanced(Grouped(word, inside))
  {
    FlatIsBalanced(word);
    BalancedParentheses(inside);
    hide Balanced;
    BalancedConcat(word, "(" + (inside + ")"));
  }

  lemma BalancedParentheses(inside: string)
    requires Balanced(inside)
    ensures Balanced("(" + (inside + ")"))
  {
    var w := "(" + (inside + ")");
    assert Level("(", 0) == 0 && Level("(", 1) == 1;
    assert Level(")", 0) == 0 && Level(")", 1) == -1;
    hide Level;
    forall i | 0 <= i <= |w| ensures Level(w, i) >= 0 && (i == |w| ==> Level(w, i) == 0) {
      var rest := inside + ")";
      LevelOfConcat("(", rest, if i == 0 then 0 else i - 1);
      if 0 < i <= |inside| + 1 {
        LevelOfConcat(inside, ")", 0);
      } else if i > 0 {
        LevelOfConcat(inside, ")", 1);
      }
    }
  }

  /** A predicate whose options balance prints balanced: it closes its own parentheses and nobody else's. */
  lemma {:induction false} PrintsBalanced(c: Cfg)
    requires OptionsBalance(c)
    ensures Balanced(Print(c))
    decreases c, 0
  {
    hide Balanced;
    hide Grouped;
    GroupLength();
    match c
    case Atom(_) =>
    case Not(gap, inner) =>
      PrintsBalanced(inner);
      SpacesAreFlat(gap);
      BalancedGroup("not" + gap, Print(inner));
    case All(parts) =>
      PrintsBalancedList(parts);
      BalancedGroup("all", PrintList(parts));
    case Any(parts) =>
      PrintsBalancedList(parts);
      BalancedGroup("any", PrintList(parts));
  }

  lemma SpacesAreFlat(gap: string)
    requires AreSpaces(gap)
    ensures '(' !in "not" + gap && ')' !in "not" + gap
  {
  }

  lemma {:induction false} PrintsBalancedList(cs: List)
    requires AllBalance(cs)
    ensures Balanced(PrintList(cs))
    decreases cs, 0
  {
    FlatIsBalanced("");
    FlatIsBalanced(", ");
    hide Balanced;
    match cs
    case Nil =>
    case Cons(c, Nil) =>
      PrintsBalanced(c);
    case Cons(c, rest) =>
      PrintsBalanced(c);
      PrintsBalancedList(rest);
      BalancedConcat(", ", PrintList(rest));
      BalancedConcat(Print(c), ", " + PrintList(rest));
      PrintListIs(c, rest);
  }

  lemma GroupLength()
    ensures forall word, inside :: |Grouped(word, inside)| == |word| + |inside| + 2
    ensures |"all"| == |"any"| == 3 && '(' !in "all" && ')' !in "all" && '(' !in "any" && ')' !in "any"
  {
  }

  lemma GroupParts(s: string, i: nat, word: string, inside: string)
    requires StandsAt(s, i, Grouped(word, inside))
    ensures StandsAt(s, i, word) && StandsAt(s, i + |word|, "(")
    ensures StandsAt(s, i + |word| + 1, inside) && StandsAt(s, i + |word| + 1 + |inside|, ")")
  {
    StandParts(s, i, word, "(" + (inside + ")"));
    StandParts(s, i + |word|, "(", inside + ")");
    StandParts(s, i + |word| + 1, inside, ")");
  }

  ghost predicate WithoutParentheses(c: Cfg) {
    match c
    case Atom(text) => '(' !in text && ')' !in text
    case Not(gap, inner) => AreSpaces(gap) && WithoutParentheses(inner)
    case All(parts) => NoneWithParentheses(parts)
    case Any(parts) => NoneWithParentheses(parts)
  }

  ghost predicate NoneWithParentheses(cs: List) {
    cs.Cons? ==> WithoutParentheses(cs.head) && NoneWithParentheses(cs.tail)
  }

  /** Options without parentheses, whatever their words, meet both conditions. */
  lemma {:induction false} WithoutParenthesesIsPlain(c: Cfg)
    requires WithoutParentheses(c)
    ensures Plain(c) && OptionsBalance(c)
    decreases c, 0
  {
    hide Balanced;
    hide Print;
    match c
    case Atom(text) =>
      FlatIsBalanced(text);
    case Not(_, inner) =>
      WithoutParenthesesIsPlain(inner);
      PrintsBalanced(inner);
    case All(parts) =>
      NoneWithParenthesesIsPlain(parts);
    case Any(parts) =>
      NoneWithParenthesesIsPlain(parts);
  }

  lemma {:induction false} NoneWithParenthesesIsPlain(cs: List)
    requires NoneWithParentheses(cs)
    ensures PlainList(cs) && AllBalance(cs)
    decreases cs, 0
  {
    hide Balanced;
    hide Print;
    if cs.Cons? {
      WithoutParenthesesIsPlain(cs.head);
      NoneWithParenthesesIsPlain(cs.tail);
    }
  }

  lemma PrintListIs(c: Cfg, rest: List)
    requires rest.Cons?
    ensures PrintList(Cons(c, rest)) == Print(c) + (", " + PrintList(rest))
  {
    hide Print;
  }

  lemma ListParts(s: string, i: nat, c: Cfg, rest: List)
    requires rest.Cons? && StandsAt(s, i, PrintList(Cons(c, rest)))
    ensures StandsAt(s, i, Print(c)) && StandsAt(s, i + |Print(c)|, ", ")
    ensures StandsAt(s, i + |Print(c)| + 2, PrintList(rest))
    ensures |PrintList(Cons(c, rest))| == |Print(c)| + 2 + |PrintList(rest)|
  {
    PrintListIs(c, rest);
    hide *;
    StandParts(s, i, Print(c), ", " + PrintList(rest));
    StandParts(s, i + |Print(c)|, ", ", PrintList(rest));
  }

  // ---- What the stripper leaves of a printed predicate ---------------------------------------------

  function Kept(c: Cfg): string {
    match c
    case Atom(text) => text
    case Not(_, _) => ""
    case All(parts) => Grouped("all", KeptList(parts))
    case Any(parts) => Grouped("any", KeptList(parts))
  }

  function KeptList(cs: List): string {
    match cs
    case Nil => ""
    case Cons(c, Nil) => Kept(c)
    case Cons(c, rest) => Kept(c) + ", " + KeptList(rest)
  }

  /** A place where a predicate may begin: no word runs into it. */
  ghost predicate Begins(s: string, i: nat) {
    i <= |s| && (i == 0 || !IsWord(s[i - 1]))
  }

  /** A place where a predicate may end. */
  ghost predicate Ends(s: string, i: nat) {
    i <= |s| && (i == |s| || s[i] == ',' || s[i] == ')')
  }

  lemma {:induction false} SpacesEndSame(s: string, i: nat, text: string, k: nat)
    requires StandsAt(s, i, text) && Ends(s, i + |text|) && k <= |text|
    ensures SpacesEnd(s, i + k) == i + SpacesEnd(text, k)
    decreases |text| - k
  {
    if k < |text| {
      StandsIndex(s, i, text, k);
      if IsSpace(text[k]) {
        SpacesEndSame(s, i, text, k + 1);
      }
    }
  }

  /** An option opens a negation where it stands only if it does so by itself. */
  lemma NotOpensSame(s: string, i: nat, text: string, k: nat)
    requires StandsAt(s, i, text) && Ends(s, i + |text|) && k < |text| && NotOpens(text, k).None?
    ensures NotOpens(s, i + k).None?
  {
    hide SpacesEnd;
    hide IsWord;
    hide StandsAt;
    if i + k + 3 <= |s| && s[i + k..i + k + 3] == "not" {
      var w := s[i + k..i + k + 3];
      assert s[i + k] == w[0] && s[i + k + 1] == w[1] && s[i + k + 2] == w[2];
      assert k + 3 <= |text|;
      StandsIndex(s, i, text, k);
      StandsIndex(s, i, text, k + 1);
      StandsIndex(s, i, text, k + 2);
      assert text[k..k + 3] == "not";
      SpacesEndSame(s, i, text, k + 3);
      var e := SpacesEnd(text, k + 3);
      if e < |text| {
        StandsIndex(s, i, text, e);
      }
      if k > 0 {
        StandsIndex(s, i, text, k - 1);
      }
    }
  }

  /** An option that opens no negation is kept, up to a place where a predicate ends. */
  lemma {:induction false} KeepText(s: string, i: nat, text: string, k: nat)
    requires StandsAt(s, i, text) && Ends(s, i + |text|) && k <= |text|
    requires forall j :: k <= j <= |text| ==> NotOpens(text, j).None?
    ensures Stripped(s, i + k) == text[k..] + Stripped(s, i + |text|)
    decreases |text| - k
  {
    hide Stripped;
    hide NotOpens;
    if k < |text| {
      NotOpensSame(s, i, text, k);
      StandsIndex(s, i, text, k);
      KeepStep(s, i + k);
      KeepText(s, i, text, k + 1);
      assert text[k..] == [text[k]] + text[k + 1..];
    } else {
      assert text[k..] + Stripped(s, i + k) == Stripped(s, i + k);
    }
  }

  lemma {:induction false} StrippedIsShorter(s: string, i: nat)
    requires i <= |s|
    ensures |Stripped(s, i)| <= |s| - i
    ensures (exists j :: i <= j <= |s| && NotOpens(s, j).Some?) ==> |Stripped(s, i)| < |s| - i
    decreases |s| - i
  {
    hide Stripped;
    hide NotOpens;
    if i == |s| {
      NothingLeft(s);
      NothingOpensAtEnd(s);
    } else if NotOpens(s, i).Some? {
      DropStep(s, i);
      StrippedIsShorter(s, Close(s, NotOpens(s, i).value, 1));
    } else {
      KeepStep(s, i);
      StrippedIsShorter(s, i + 1);
    }
  }

  lemma NothingOpensAtEnd(s: string)
    ensures NotOpens(s, |s|).None?
  {
  }

  /** By itself an option is kept as it is if and only if it opens no negation. */
  lemma KeptIffOpensNoNot(text: string)
    ensures Stripped(text, 0) == text <==> OpensNoNot(text)
  {
    hide Stripped;
    hide NotOpens;
    if OpensNoNot(text) {
      assert text[0..|text|] == text && text[0..] == text;
      KeepText(text, 0, text, 0);
      NothingLeft(text);
      assert text + "" == text;
    } else {
      StrippedIsShorter(text, 0);
    }
  }

  lemma KeepOne(s: string, i: nat, c: char)
    requires StandsAt(s, i, [c]) && c != 'n'
    ensures Stripped(s, i) == [c] + Stripped(s, i + 1)
  {
    assert s[i] == s[i..i + 1][0];
    if i + 3 <= |s| {
      assert s[i..i + 3][0] == s[i];
    }
  }

  /** The words of the groups are not negations. */
  lemma KeepWord(s: string, i: nat, word: string)
    requires word in {"all", "any"} && StandsAt(s, i, word + "(")
    ensures Stripped(s, i) == word + "(" + Stripped(s, i + 4)
  {
    var w := word + "(";
    hide *;
    WordLetters(s, i, word);
    KeepStep(s, i);
    KeepStep(s, i + 1);
    KeepStep(s, i + 2);
    KeepStep(s, i + 3);
    assert w == [s[i]] + ([s[i + 1]] + ([s[i + 2]] + [s[i + 3]]));
  }

  lemma WordLetters(s: string, i: nat, word: string)
    requires word in {"all", "any"} && StandsAt(s, i, word + "(")
    ensures i + 4 <= |s| && word + "(" == [s[i]] + ([s[i + 1]] + ([s[i + 2]] + [s[i + 3]]))
    ensures forall j :: i <= j < i + 4 ==> NotOpens(s, j).None?
  {
    var w := s[i..i + 4];
    assert s[i] == w[0] && s[i + 1] == w[1] && s[i + 2] == w[2] && s[i + 3] == w[3];
    forall j | i <= j < i + 4 ensures NotOpens(s, j).None? {
      if j + 3 <= |s| {
        assert s[j..j + 3][0] == s[j] && s[j..j + 3][1] == s[j + 1];
      }
    }
  }

  /** A negation goes as a whole. */
  lemma DropNot(s: string, i: nat, gap: string, inner: Cfg)
    requires Plain(Not(gap, inner)) && StandsAt(s, i, Print(Not(gap, inner))) && Begins(s, i)
    ensures Stripped(s, i) == Stripped(s, i + |Print(Not(gap, inner))|)
  {
    var word := "not" + gap;
    hide Stripped;
    hide Close;
    hide Begins;
    GroupParts(s, i, word, Print(inner));
    NotOpensAt(s, i, gap, Print(inner));
    DropStep(s, i);
    hide NotOpens;
    CloseBalanced(s, i + |word| + 1, Print(inner), 1);
    CloseOne(s, i + |word| + 1 + |Print(inner)|, ')', 1);
    CloseStops(s, i + |word| + |Print(inner)| + 2, 0);
  }

  lemma NotOpensAt(s: string, i: nat, gap: string, inside: string)
    requires StandsAt(s, i, Grouped("not" + gap, inside)) && AreSpaces(gap) && Begins(s, i)
    ensures NotOpens(s, i) == Some(i + |gap| + 4)
  {
    hide SpacesEnd;
    hide IsSpace;
    var word := "not" + gap;
    GroupParts(s, i, word, inside);
    StandParts(s, i, "not", gap);
    assert s[i + |word|] == s[i + |word|..i + |word| + 1][0] == '(';
    SpacesEndAt(s, i + 3, gap);
  }

  lemma {:induction false} SpacesEndAt(s: string, i: nat, gap: string)
    requires StandsAt(s, i, gap) && AreSpaces(gap)
    requires i + |gap| < |s| && s[i + |gap|] == '('
    ensures SpacesEnd(s, i) == i + |gap|
    decreases |gap|
  {
    if gap != "" {
      assert gap == [gap[0]] + gap[1..];
      StandParts(s, i, [gap[0]], gap[1..]);
      assert s[i] == s[i..i + 1][0] == gap[0];
      SpacesEndAt(s, i + 1, gap[1..]);
    }
  }

  lemma {:induction false} StripsToKept(s: string, i: nat, c: Cfg)
    requires Plain(c) && StandsAt(s, i, Print(c)) && Begins(s, i) && Ends(s, i + |Print(c)|)
    ensures Stripped(s, i) == Kept(c) + Stripped(s, i + |Print(c)|)
    decreases c, 0
  {
    hide Stripped;
    hide StandsAt;
    hide Ends;
    hide Begins;
    hide Grouped;
    GroupLength();
    match c
    case Atom(text) =>
      KeepText(s, i, text, 0);
      assert text[0..] == text;
    case Not(gap, inner) =>
      DropNot(s, i, gap, inner);
    case All(parts) =>
      StripsGroup(s, i, "all", parts);
    case Any(parts) =>
      StripsGroup(s, i, "any", parts);
  }

  lemma {:induction false} StripsGroup(s: string, i: nat, word: string, parts: List)
    requires word in {"all", "any"} && PlainList(parts) && StandsAt(s, i, Grouped(word, PrintList(parts)))
    ensures Stripped(s, i) == Grouped(word, KeptList(parts)) + Stripped(s, i + |PrintList(parts)| + 5)
    decreases parts, 1
  {
    hide Stripped;
    hide NotOpens;
    hide PrintList;
    hide KeptList;
    var inside := PrintList(parts);
    GroupParts(s, i, word, inside);
    assert Grouped(word, inside) == (word + "(") + (inside + ")");
    StandParts(s, i, word + "(", inside + ")");
    KeepWord(s, i, word);
    assert s[i + 3] == s[i + 3..i + 4][0];
    assert s[i + 4 + |inside|] == s[i + 4 + |inside|..i + 5 + |inside|][0];
    StripsToKeptList(s, i + 4, parts);
    KeepOne(s, i + 4 + |inside|, ')');
  }

  lemma {:induction false} StripsToKeptList(s: string, i: nat, cs: List)
    requires PlainList(cs) && StandsAt(s, i, PrintList(cs)) && Begins(s, i) && Ends(s, i + |PrintList(cs)|)
    ensures Stripped(s, i) == KeptList(cs) + Stripped(s, i + |PrintList(cs)|)
    decreases cs, 0
  {
    hide Stripped;
    hide Print;
    hide Kept;
    hide Plain;
    match cs
    case Nil =>
    case Cons(c, Nil) =>
      StripsToKept(s, i, c);
    case Cons(c, rest) =>
      ListParts(s, i, c, rest);
      var comma := i + |Print(c)|;
      assert s[comma] == s[comma..comma + 2][0] && s[comma + 1] == s[comma..comma + 2][1];
      StripsToKept(s, i, c);
      KeepOne(s, comma, ',');
      KeepOne(s, comma + 1, ' ');
      StripsToKeptList(s, comma + 2, rest);
  }

  // ---- The word `test` in what is left -----------------------------------------------------------------

  /** No word crosses a character that belongs to none. */
  lemma TestSplits(a: string, c: char, b: string)
    requires !IsWord(c)
    ensures HasTest(a + [c] + b) <==> HasTest(a) || HasTest(b)
  {
    var s := a + [c] + b;
    forall i: nat | i < |s| && TestAt(s, i) ensures HasTest(a) || HasTest(b) {
      var w := s[i..i + 4];
      assert s[i] == w[0] && s[i + 1] == w[1] && s[i + 2] == w[2] && s[i + 3] == w[3];
      assert IsWord(s[i]) && IsWord(s[i + 1]) && IsWord(s[i + 2]) && IsWord(s[i + 3]);
      if i < |a| {
        assert i + 4 <= |a|;
        assert a[i..i + 4] == s[i..i + 4];
        assert TestAt(a, i);
      } else {
        var k := i - |a| - 1;
        assert b[k..k + 4] == s[i..i + 4];
        assert TestAt(b, k);
      }
    }
    forall i: nat | i < |a| && TestAt(a, i) ensures HasTest(s) {
      assert s[i..i + 4] == a[i..i + 4];
      assert TestAt(s, i);
    }
    forall k: nat | k < |b| && TestAt(b, k) ensures HasTest(s) {
      var i := k + |a| + 1;
      assert s[i..i + 4] == b[k..k + 4];
      assert TestAt(s, i);
    }
  }

  lemma {:induction false} KeptTest(c: Cfg)
    ensures HasTest(Kept(c)) <==> Bare(c)
    decreases c, 0
  {
    match c
    case Atom(_) =>
    case Not(_, _) =>
    case All(parts) =>
      GroupTest("all", parts);
    case Any(parts) =>
      GroupTest("any", parts);
  }

  lemma {:induction false} GroupTest(word: string, parts: List)
    requires word in {"all", "any"}
    ensures HasTest(Grouped(word, KeptList(parts))) <==> BareList(parts)
    decreases parts, 1
  {
    KeptListTest(parts);
    TestSplits(word, '(', KeptList(parts));
    TestSplits(word + "(" + KeptList(parts), ')', "");
    assert word + "(" + KeptList(parts) + ")" + "" == Grouped(word, KeptList(parts));
  }

  lemma {:induction false} KeptListTest(cs: List)
    ensures HasTest(KeptList(cs)) <==> BareList(cs)
    decreases cs, 0
  {
    match cs
    case Nil =>
    case Cons(c, Nil) =>
      KeptTest(c);
    case Cons(c, rest) =>
      KeptTest(c);
      KeptListTest(rest);
      TestSplits("", ' ', KeptList(rest));
      assert "" + " " + KeptList(rest) == " " + KeptList(rest);
      TestSplits(Kept(c), ',', " " + KeptList(rest));
      assert Kept(c) + ", " + KeptList(rest) == Kept(c) + "," + (" " + KeptList(rest));
  }

  /**
    The text search finds a gate exactly when an option that names `test` has no `not` around
    it, at any depth and however the options read.
   */
  lemma GateIffBare(c: Cfg)
    requires Plain(c)
    ensures IsGate(Print(c)) <==> Bare(c)
  {
    hide Print;
    hide Kept;
    hide Bare;
    hide Plain;
    hide HasTest;
    var s := Print(c);
    assert s[0..|s|] == s;
    NothingLeft(s);
    hide Stripped;
    StripsToKept(s, 0, c);
    assert Kept(c) + "" == Kept(c);
    KeptTest(c);
  }

  /** Where text follows, a negation goes to its own parenthesis if and only if what it holds is balanced. */
  lemma NegationGoesIffBalanced(s: string, i: nat, gap: string, inside: string)
    requires AreSpaces(gap) && StandsAt(s, i, Grouped("not" + gap, inside)) && Begins(s, i)
    requires i + |Grouped("not" + gap, inside)| < |s|
    ensures NotOpens(s, i).Some?
    ensures Close(s, NotOpens(s, i).value, 1) == i + |Grouped("not" + gap, inside)| <==> Balanced(inside)
  {
    hide *;
    GroupParts(s, i, "not" + gap, inside);
    NotOpensAt(s, i, gap, inside);
    GroupLength();
    StopsIffBalanced(s, i + |gap| + 4, inside);
  }

  // ---- The gate behind any negation ------------------------------------------------------------------------

  /** Parentheses are left open, and none closes that was not opened. */
  ghost predicate LeavesOpen(w: string) {
    Level(w, |w|) > 0 && forall i :: 0 <= i <= |w| ==> Level(w, i) >= 0
  }

  /** The scan stops inside `w`, behind `w1`; `w2` is left over. */
  ghost predicate StopsBetween(w: string, w1: string, w2: string) {
    w == w1 + (")" + w2) && Balanced(w1)
  }

  /** There is no fourth case: what a negation holds is balanced, leaves a parenthesis open, or closes one too many. */
  lemma ThreeCases(w: string)
    ensures Balanced(w) || LeavesOpen(w) || exists w1, w2 :: StopsBetween(w, w1, w2)
  {
    if k :| 0 <= k <= |w| && Level(w, k) < 0 {
      var j := FirstBelow(w, k);
      assert j > 0 && Level(w, j - 1) >= 0;
      assert Level(w, j - 1) == 0 && w[j - 1] == ')';
      var w1, w2 := w[..j - 1], w[j..];
      assert w == w1 + (")" + w2);
      hide Level;
      forall i | 0 <= i <= |w1| ensures Level(w1, i) == Level(w, i) {
        LevelOfPrefix(w1, ")" + w2, i);
      }
      assert StopsBetween(w, w1, w2);
    }
  }

  /** `all(not(...), ...)` */
  function NotAnd(gap: string, inner: Cfg, rest: List): Cfg {
    All(Cons(Not(gap, inner), rest))
  }

  /** What stands behind the negation, up to the last parenthesis. */
  function Others(rest: List): string {
    if rest.Nil? then "" else ", " + PrintList(rest)
  }

  function Negated(gap: string, inner: Cfg): string {
    Grouped("not" + gap, Print(inner))
  }

  lemma NotAndPrints(gap: string, inner: Cfg, rest: List)
    ensures Print(NotAnd(gap, inner, rest)) == "all(" + (Negated(gap, inner) + (Others(rest) + ")"))
  {
    var head := Not(gap, inner);
    if rest.Cons? {
      PrintListIs(head, rest);
    }
    hide Grouped;
    assert PrintList(Cons(head, rest)) == Negated(gap, inner) + Others(rest);
    GroupedIs("all", Negated(gap, inner) + Others(rest));
    AllOpens(Negated(gap, inner), Others(rest));
  }

  lemma GroupedIs(word: string, inside: string)
    ensures Grouped(word, inside) == word + ("(" + (inside + ")"))
  {
  }

  lemma AllOpens(a: string, b: string)
    ensures "all" + ("(" + ((a + b) + ")")) == "all(" + (a + (b + ")"))
  {
    assert "all" + "(" == "all(";
  }

  /** Where the text of the negation stands, and what stands behind it. */
  lemma NotAndStands(gap: string, inner: Cfg, rest: List)
    ensures var s, w := Print(NotAnd(gap, inner, rest)), Print(inner);
      var p := 8 + |gap|;
      && StandsAt(s, 0, "all" + "(") && StandsAt(s, 4, Grouped("not" + gap, w)) && Begins(s, 4)
      && StandsAt(s, p, w) && StandsAt(s, p + |w|, ")")
      && StandsAt(s, p + |w| + 1, Others(rest)) && StandsAt(s, p + |w| + 1 + |Others(rest)|, ")")
      && |s| == p + |w| + |Others(rest)| + 2
  {
    var s, w := Print(NotAnd(gap, inner, rest)), Print(inner);
    NotAndPrints(gap, inner, rest);
    NegatedIs(gap, inner);
    hide *;
    FourParts(s, Negated(gap, inner), Others(rest));
    GroupParts(s, 4, "not" + gap, w);
    OpensPlainly(s);
  }

  lemma NegatedIs(gap: string, inner: Cfg)
    ensures Negated(gap, inner) == Grouped("not" + gap, Print(inner)) && |Negated(gap, inner)| == |gap| + |Print(inner)| + 5
    ensures |"not" + gap| == |gap| + 3
  {
    GroupLength();
    hide Grouped;
  }

  lemma FourParts(s: string, negated: string, others: string)
    requires s == "all(" + (negated + (others + ")"))
    ensures StandsAt(s, 0, "all(") && StandsAt(s, 0, "all" + "(") && StandsAt(s, 4, negated)
    ensures StandsAt(s, 4 + |negated|, others) && StandsAt(s, 4 + |negated| + |others|, ")")
    ensures |s| == 5 + |negated| + |others|
  {
    assert StandsAt(s, 0, s) && "all" + "(" == "all(";
    hide StandsAt;
    StandParts(s, 0, "all(", negated + (others + ")"));
    StandParts(s, 4, negated, others + ")");
    StandParts(s, 4 + |negated|, others, ")");
  }

  lemma OpensPlainly(s: string)
    requires StandsAt(s, 0, "all(")
    ensures Begins(s, 4)
  {
    assert s[3] == s[0..4][3];
  }

  /** The words in front are kept, and the negation goes wherever its parenthesis is found. */
  lemma NotAndStrips(gap: string, inner: Cfg, rest: List)
    requires AreSpaces(gap)
    ensures var s := Print(NotAnd(gap, inner, rest));
      8 + |gap| <= |s| && Stripped(s, 0) == "all(" + Stripped(s, Close(s, 8 + |gap|, 1))
  {
    var s := Print(NotAnd(gap, inner, rest));
    NotAndStands(gap, inner, rest);
    hide *;
    KeepWord(s, 0, "all");
    NotOpensAt(s, 4, gap, Print(inner));
    DropStep(s, 4);
    assert "all" + "(" == "all(";
  }

  lemma OthersBalance(rest: List)
    requires Balanced(PrintList(rest))
    ensures Balanced(Others(rest))
  {
    FlatIsBalanced("");
    FlatIsBalanced(", ");
    BalancedConcat(", ", PrintList(rest));
  }

  /** A parenthesis left open hides everything that follows. */
  lemma OpenHidesRest(gap: string, inner: Cfg, rest: List)
    requires AreSpaces(gap) && LeavesOpen(Print(inner)) && Balanced(PrintList(rest))
    ensures !IsGate(Print(NotAnd(gap, inner, rest)))
  {
    var s, w, p := Print(NotAnd(gap, inner, rest)), Print(inner), 8 + |gap|;
    hide *;
    NotAndStands(gap, inner, rest);
    NotAndStrips(gap, inner, rest);
    OthersBalance(rest);
    NoTestInAll();
    NothingLeft(s);
    GateIs(s);
    CloseOpen(s, p, w, Others(rest));
  }

  lemma GateIs(pred: string)
    ensures IsGate(pred) == HasTest(Stripped(pred, 0))
  {
  }

  lemma CloseOpen(s: string, p: nat, w: string, others: string)
    requires LeavesOpen(w) && Balanced(others)
    requires StandsAt(s, p, w) && StandsAt(s, p + |w|, ")")
    requires StandsAt(s, p + |w| + 1, others) && StandsAt(s, p + |w| + 1 + |others|, ")")
    requires |s| == p + |w| + |others| + 2
    ensures Close(s, p, 1) == |s|
  {
    var open := Level(w, |w|);
    hide Close;
    hide StandsAt;
    hide Level;
    CloseFollows(s, p, w, |w|, 1);
    CloseOne(s, p + |w|, ')', 1 + open);
    CloseBalanced(s, p + |w| + 1, others, open);
    CloseOne(s, p + |w| + 1 + |others|, ')', open);
    CloseStops(s, |s|, open - 1);
  }

  lemma NoTestInAll()
    ensures !HasTest("all(") && "all(" + "" == "all("
  {
    assert "all("[0..4][0] != "test"[0];
  }

  /** What is left of a negation that is cut short counts as if it stood outside. */
  lemma EarlyStopShowsRest(gap: string, inner: Cfg, rest: List, w1: string, w2: string)
    requires AreSpaces(gap) && StopsBetween(Print(inner), w1, w2) && OpensNoNot(w2) && PlainList(rest)
    ensures IsGate(Print(NotAnd(gap, inner, rest))) <==> HasTest(w2) || BareList(rest)
  {
    var s, w, p := Print(NotAnd(gap, inner, rest)), Print(inner), 8 + |gap|;
    hide *;
    NotAndStands(gap, inner, rest);
    NotAndStrips(gap, inner, rest);
    GateIs(s);
    ClosesEarly(s, p, w, w1, w2);
    LeftOver(s, p + |w1| + 1, w2, rest);
    TestInLeftOver(w2, rest);
  }

  lemma ClosesEarly(s: string, p: nat, w: string, w1: string, w2: string)
    requires StandsAt(s, p, w) && StopsBetween(w, w1, w2)
    ensures |w| == |w1| + 1 + |w2| && StandsAt(s, p + |w1| + 1, w2)
    ensures p + |w1| + 1 <= |s| && Close(s, p, 1) == p + |w1| + 1
  {
    hide Close;
    hide Balanced;
    StandParts(s, p, w1, ")" + w2);
    StandParts(s, p + |w1|, ")", w2);
    CloseBalanced(s, p, w1, 1);
    CloseOne(s, p + |w1|, ')', 1);
    CloseStops(s, p + |w1| + 1, 0);
  }

  function KeptOthers(rest: List): string {
    if rest.Nil? then "" else ", " + KeptList(rest)
  }

  lemma LeftOver(s: string, q: nat, w2: string, rest: List)
    requires StandsAt(s, q, w2) && StandsAt(s, q + |w2|, ")") && OpensNoNot(w2) && PlainList(rest)
    requires StandsAt(s, q + |w2| + 1, Others(rest)) && StandsAt(s, q + |w2| + 1 + |Others(rest)|, ")")
    requires |s| == q + |w2| + |Others(rest)| + 2
    ensures Stripped(s, q) == w2 + (")" + (KeptOthers(rest) + ")"))
  {
    var t := q + |w2| + 1;
    hide *;
    EndsAtParenthesis(s, q + |w2|);
    OthersAre(rest);
    if rest.Cons? {
      KeptBehind(s, t, rest);
    }
    SpellOut(w2, KeptOthers(rest));
    KeepOption(s, q, w2);
    KeepOne(s, q + |w2|, ')');
    KeepOne(s, t + |Others(rest)|, ')');
    NothingLeft(s);
  }

  lemma OthersAre(rest: List)
    ensures rest.Cons? ==> Others(rest) == ", " + PrintList(rest) && KeptOthers(rest) == ", " + KeptList(rest)
    ensures rest.Nil? ==> Others(rest) == "" == KeptOthers(rest)
  {
  }

  lemma SpellOut(w: string, others: string)
    ensures w + ([')'] + (others + ([')'] + ""))) == w + (")" + (others + ")"))
    ensures others == "" ==> [')'] + "" == others + ([')'] + "")
  {
  }

  lemma KeepOption(s: string, i: nat, text: string)
    requires StandsAt(s, i, text) && Ends(s, i + |text|) && OpensNoNot(text)
    ensures Stripped(s, i) == text + Stripped(s, i + |text|)
  {
    assert text[0..] == text;
    hide Stripped;
    hide NotOpens;
    KeepText(s, i, text, 0);
  }

  lemma EndsAtParenthesis(s: string, i: nat)
    requires StandsAt(s, i, ")")
    ensures Ends(s, i)
  {
    StandsIndex(s, i, ")", 0);
  }

  lemma KeptBehind(s: string, t: nat, rest: List)
    requires PlainList(rest) && StandsAt(s, t, ", " + PrintList(rest)) && StandsAt(s, t + 2 + |PrintList(rest)|, ")")
    ensures Stripped(s, t) == ", " + KeptList(rest) + Stripped(s, t + 2 + |PrintList(rest)|)
  {
    hide *;
    EndsAtParenthesis(s, t + 2 + |PrintList(rest)|);
    CommaStands(s, t, PrintList(rest));
    KeepOne(s, t, ',');
    KeepOne(s, t + 1, ' ');
    StripsToKeptList(s, t + 2, rest);
    CommaSpelt(KeptList(rest), Stripped(s, t + 2 + |PrintList(rest)|));
  }

  lemma CommaSpelt(a: string, b: string)
    ensures [','] + ([' '] + (a + b)) == ", " + a + b
  {
  }

  lemma CommaStands(s: string, t: nat, w: string)
    requires StandsAt(s, t, ", " + w)
    ensures StandsAt(s, t, [',']) && StandsAt(s, t + 1, [' ']) && StandsAt(s, t + 2, w) && Begins(s, t + 2)
  {
    StandParts(s, t, ", ", w);
    StandsIndex(s, t, ", ", 0);
    StandsIndex(s, t, ", ", 1);
  }

  lemma TestInLeftOver(w2: string, rest: List)
    ensures HasTest("all(" + (w2 + (")" + (KeptOthers(rest) + ")")))) <==> HasTest(w2) || BareList(rest)
  {
    hide HasTest;
    var others := KeptOthers(rest);
    OthersTest(rest);
    TestSplits(others, ')', "");
    assert others + [')'] + "" == others + ")";
    TestSplits(w2, ')', others + ")");
    assert w2 + [')'] + (others + ")") == w2 + (")" + (others + ")"));
    TestSplits("all", '(', w2 + (")" + (others + ")")));
    assert "all" + ['('] + (w2 + (")" + (others + ")"))) == "all(" + (w2 + (")" + (others + ")")));
    NoTestInWords();
  }

  lemma NoTestInWords()
    ensures !HasTest("") && !HasTest("all")
  {
  }

  lemma OthersTest(rest: List)
    ensures HasTest(KeptOthers(rest)) <==> BareList(rest)
  {
    KeptListTest(rest);
    NoTestInWords();
    if rest.Cons? {
      hide HasTest;
      hide KeptList;
      var kept := KeptList(rest);
      TestSplits("", ' ', kept);
      assert "" + [' '] + kept == " " + kept;
      TestSplits("", ',', " " + kept);
      assert "" + [','] + (" " + kept) == ", " + kept;
    }
  }

  lemma NotAndIsBare(gap: string, inner: Cfg, rest: List)
    ensures Bare(NotAnd(gap, inner, rest)) <==> BareList(rest)
    ensures AreSpaces(gap) && PlainList(rest) && Balanced(Print(inner)) ==> Plain(NotAnd(gap, inner, rest))
  {
    hide Balanced;
    hide Print;
    var head := Not(gap, inner);
    assert !Bare(head) && (AreSpaces(gap) && Balanced(Print(inner)) ==> Plain(head));
    assert BareList(Cons(head, rest)) <==> BareList(rest);
    assert Plain(head) && PlainList(rest) ==> PlainList(Cons(head, rest));
  }

  /**
    The gate of `all(not(...), ...)`, whatever the negation holds: right if that is balanced;
    missed with every bare `test` behind it if a parenthesis is left open; and where one
    closes too many, right unless what is left over names `test` and nothing else does.
   */
  lemma GateOfNegation(gap: string, inner: Cfg, rest: List)
    requires AreSpaces(gap) && PlainList(rest) && Balanced(PrintList(rest))
    ensures var c, w := NotAnd(gap, inner, rest), Print(inner);
      var right := IsGate(Print(c)) <==> Bare(c);
      && (Balanced(w) ==> right)
      && (LeavesOpen(w) ==> (right <==> !BareList(rest)))
      && forall w1, w2 :: StopsBetween(w, w1, w2) && OpensNoNot(w2) ==> (right <==> BareList(rest) || !HasTest(w2))
  {
    var c, w := NotAnd(gap, inner, rest), Print(inner);
    NotAndIsBare(gap, inner, rest);
    if Balanced(w) {
      GateIffBare(c);
    }
    hide Print;
    hide Bare;
    hide BareList;
    hide IsGate;
    hide HasTest;
    hide OpensNoNot;
    hide StopsBetween;
    hide PlainList;
    hide Balanced;
    hide LeavesOpen;
    if LeavesOpen(w) {
      OpenHidesRest(gap, inner, rest);
    }
    forall w1, w2 | StopsBetween(w, w1, w2) && OpensNoNot(w2)
      ensures IsGate(Print(c)) <==> HasTest(w2) || BareList(rest)
    {
      EarlyStopShowsRest(gap, inner, rest, w1, w2);
    }
  }

  /** An option that opens a parenthesis inside a negation takes the rest with it: the gate on `test` is missed. */
  lemma ParenthesisHidesTest(a: string, b: string)
    requires '(' !in a && ')' !in a && '(' !in b && ')' !in b
    ensures var c := NotAnd("", Atom(a + ("(" + b)), Cons(Atom("test"), Nil)); Bare(c) && !IsGate(Print(c))
  {
    LeavesOneOpen(a, b);
    FlatIsBalanced("test");
    assert TestAt("test", 0);
    OpenHidesRest("", Atom(a + ("(" + b)), Cons(Atom("test"), Nil));
  }

  lemma LeavesOneOpen(a: string, b: string)
    requires '(' !in a && ')' !in a && '(' !in b && ')' !in b
    ensures LeavesOpen(a + ("(" + b))
  {
    assert Level("(", 0) == 0 && Level("(", 1) == 1;
    FlatIsBalanced(a);
    FlatIsBalanced(b);
    hide Level;
    var w := a + ("(" + b);
    forall i | 0 <= i <= |w| ensures Level(w, i) >= 0 && (i == |w| ==> Level(w, i) == 1) {
      LevelOfConcat(a, "(" + b, if i <= |a| then 0 else i - |a|);
      if i > |a| {
        LevelOfConcat("(", b, i - |a| - 1);
      }
    }
  }

  // ---- Words -------------------------------------------------------------------------------------------------

  lemma WordCharacters(c: char)
    ensures IsWord(c) <==> ('0' <= c && c <= '9') || ('a' <= c && c <= 'z') || ('A' <= c && c <= 'Z') || c == '_'
  {
  }

  /** `w` stands between `a` and `b` as a word of its own. */
  ghost predicate IsWordBetween(s: string, a: string, w: string, b: string) {
    s == a + w + b && (a != "" ==> !IsWord(a[|a| - 1])) && (b != "" ==> !IsWord(b[0]))
  }

  /** The search finds `test` where it is a word, and only there. */
  lemma HasTestIff(s: string)
    ensures HasTest(s) <==> exists a, b :: IsWordBetween(s, a, "test", b)
  {
    if i: nat :| i < |s| && TestAt(s, i) {
      assert s == s[..i] + "test" + s[i + 4..];
      assert IsWordBetween(s, s[..i], "test", s[i + 4..]);
    }
    if a, b :| IsWordBetween(s, a, "test", b) {
      assert s[|a|..|a| + 4] == "test" && (a != "" ==> s[|a| - 1] == a[|a| - 1]) && (b != "" ==> s[|a| + 4] == b[0]);
      assert TestAt(s, |a|);
    }
  }

  /** A negation opens at `i` where `not`, as a word of its own, white space and a parenthesis stand. */
  lemma NotOpensIff(s: string, i: nat, k: nat)
    requires i <= |s|
    ensures NotOpens(s, i) == Some(k) <==>
      && k >= i + 4 && k <= |s| && s[i..i + 3] == "not" && AreSpaces(s[i + 3..k - 1]) && s[k - 1] == '('
      && (i > 0 ==> !IsWord(s[i - 1]))
  {
    hide IsWord;
    hide IsSpace;
    if k >= i + 4 && k <= |s| && AreSpaces(s[i + 3..k - 1]) && s[k - 1] == '(' {
      ParenthesisIsNoSpace();
      assert StandsAt(s, i + 3, s[i + 3..k - 1]);
      SpacesEndAt(s, i + 3, s[i + 3..k - 1]);
    }
    if NotOpens(s, i) == Some(k) {
      assert forall j :: i + 3 <= j < k - 1 ==> IsSpace(s[j]);
    }
  }

  lemma ParenthesisIsNoSpace()
    ensures !IsSpace('(')
  {
  }
}
