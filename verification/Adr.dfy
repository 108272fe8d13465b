/**
  The numbering and the supersession links of `scripts/check_adr.py`: what the loops report,
  and what a corpus they report nothing on looks like.
 */
module Adr {
  import opened Common
  import opened Decimal
  import opened Text

  /** The number of a record, as its file name spells it. */
  type Number = s: string | |s| == 4 && AllDigits(s) witness "0000"

  datatype Record = Record(number: Number, supersededBy: Option<Number>, supersedes: seq<Number>)

  datatype Fault = NoSuccessor | NotHigher | NotNamedBack | NoPredecessor(k: nat) | NotLower(k: nat) | NotLinkedBack(k: nat)

  datatype Problem = Reused(rec: nat) | NotDense | Link(rec: nat, fault: Fault)

  // ---- What the loops compare: strings ---------------------------------------------------------------

  function Zeros(n: nat): (s: string)
    ensures |s| == n && AllDigits(s)
  {
    seq(n, _ => '0')
  }

  /** `{i:04d}` */
  function Padded(i: nat): (s: string)
    ensures AllDigits(s)
  {
    var s := Print(i);
    Zeros(if |s| < 4 then 4 - |s| else 0) + s
  }

  /** The last record among the first `k` that bears a number; a later one takes the place of an earlier. */
  function LastWith(rs: seq<Record>, n: string, k: nat): (i: Option<nat>)
    requires k <= |rs|
    ensures i.Some? ==> i.value < k && rs[i.value].number == n
    ensures i.None? ==> forall j :: 0 <= j < k ==> rs[j].number != n
  {
    if k == 0 then None else if rs[k - 1].number == n then Some(k - 1) else LastWith(rs, n, k - 1)
  }

  ghost predicate IsFault(rs: seq<Record>, i: nat, f: Fault)
    requires i < |rs|
  {
    var r := rs[i];
    match f
    case NoSuccessor => r.supersededBy.Some? && LastWith(rs, r.supersededBy.value, |rs|).None?
    case NotHigher =>
      r.supersededBy.Some? && LastWith(rs, r.supersededBy.value, |rs|).Some? && !Before(r.number, r.supersededBy.value)
    case NotNamedBack =>
      && r.supersededBy.Some?
      && var target := LastWith(rs, r.supersededBy.value, |rs|);
         target.Some? && r.number !in rs[target.value].supersedes
    case NoPredecessor(k) => k < |r.supersedes| && LastWith(rs, r.supersedes[k], |rs|).None?
    case NotLower(k) =>
      k < |r.supersedes| && LastWith(rs, r.supersedes[k], |rs|).Some? && !Before(r.supersedes[k], r.number)
    case NotLinkedBack(k) =>
      && k < |r.supersedes|
      && var other := LastWith(rs, r.supersedes[k], |rs|);
         other.Some? && rs[other.value].supersededBy != Some(r.number)
  }

  ghost predicate IsProblem(rs: seq<Record>, p: Problem) {
    match p
    case Reused(i) => i < |rs| && exists j :: 0 <= j < i && rs[j].number == rs[i].number
    case NotDense => exists i :: 0 <= i < |rs| && rs[i].number != Padded(i + 1)
    case Link(i, f) => i < |rs| && IsFault(rs, i, f)
  }

  // ---- The loops -----------------------------------------------------------------------------------------

  ghost predicate Knows(seen: map<string, nat>, rs: seq<Record>, k: nat)
    requires k <= |rs|
  {
    forall n :: LastWith(rs, n, k) == if n in seen then Some(seen[n]) else None
  }

  /** The number of every record, and what is wrong with the numbering. */
  method NumberAll(rs: seq<Record>) returns (seen: map<string, nat>, problems: seq<Problem>)
    ensures Knows(seen, rs, |rs|)
    ensures forall p :: p in problems <==> !p.Link? && IsProblem(rs, p)
  {
    hide Padded;
    seen, problems := map[], [];
    for i := 0 to |rs|
      invariant Knows(seen, rs, i)
      invariant forall p :: p in problems <==> p.Reused? && p.rec < i && IsProblem(rs, p)
    {
      assert rs[i].number in seen <==> exists j :: 0 <= j < i && rs[j].number == rs[i].number by {
        assert LastWith(rs, rs[i].number, i) == if rs[i].number in seen then Some(seen[rs[i].number]) else None;
      }
      if rs[i].number in seen {
        problems := problems + [Reused(i)];
      }
      seen := seen[rs[i].number := i];
    }
    var dense := true;
    for i := 0 to |rs|
      invariant dense <==> forall j :: 0 <= j < i ==> rs[j].number == Padded(j + 1)
    {
      dense := dense && rs[i].number == Padded(i + 1);
    }
    if !dense {
      problems := problems + [NotDense];
    }
  }

  method Links(rs: seq<Record>, seen: map<string, nat>, i: nat) returns (faults: seq<Fault>)
    requires i < |rs| && Knows(seen, rs, |rs|)
    ensures forall f :: f in faults <==> IsFault(rs, i, f)
  {
    hide LastWith;
    faults := [];
    var r := rs[i];
    if r.supersededBy.Some? {
      var heir := r.supersededBy.value;
      assert LastWith(rs, heir, |rs|) == if heir in seen then Some(seen[heir]) else None;
      if heir !in seen {
        faults := faults + [NoSuccessor];
      } else {
        if !Before(r.number, heir) {
          faults := faults + [NotHigher];
        }
        if r.number !in rs[seen[heir]].supersedes {
          faults := faults + [NotNamedBack];
        }
      }
    }
    var back := Backward(rs, seen, i);
    faults := faults + back;
  }

  ghost predicate IsBackward(f: Fault, k: nat) {
    (f.NoPredecessor? || f.NotLower? || f.NotLinkedBack?) && f.k < k
  }

  method Backward(rs: seq<Record>, seen: map<string, nat>, i: nat) returns (faults: seq<Fault>)
    requires i < |rs| && Knows(seen, rs, |rs|)
    ensures forall f :: f in faults <==> IsBackward(f, |rs[i].supersedes|) && IsFault(rs, i, f)
  {
    hide LastWith;
    faults := [];
    var r := rs[i];
    for k := 0 to |r.supersedes|
      invariant forall f :: f in faults <==> IsBackward(f, k) && IsFault(rs, i, f)
    {
      var sup := r.supersedes[k];
      assert LastWith(rs, sup, |rs|) == if sup in seen then Some(seen[sup]) else None;
      if sup !in seen {
        faults := faults + [NoPredecessor(k)];
        continue;
      }
      if !Before(sup, r.number) {
        faults := faults + [NotLower(k)];
      }
      if rs[seen[sup]].supersededBy != Some(r.number) {
        faults := faults + [NotLinkedBack(k)];
      }
    }
  }

  method Check(rs: seq<Record>) returns (problems: seq<Problem>)
    ensures forall p :: p in problems <==> IsProblem(rs, p)
    ensures problems == [] <==> InOrder(rs)
  {
    hide IsFault;
    hide Knows;
    hide InOrder;
    var seen, numbering := NumberAll(rs);
    problems := numbering;
    for i := 0 to |rs|
      invariant forall p :: p in problems <==> IsProblem(rs, p) && (p.Link? ==> p.rec < i)
    {
      var faults := Links(rs, seen, i);
      ghost var earlier := problems;
      for k := 0 to |faults|
        invariant forall p :: p in problems <==> p in earlier || (p.Link? && p.rec == i && p.fault in faults[..k])
      {
        problems := problems + [Link(i, faults[k])];
      }
      assert faults[..|faults|] == faults;
    }
    CleanIffInOrder(rs);
    assert problems == [] <==> forall p :: p !in problems by {
      if problems != [] {
        assert problems[0] in problems;
      }
    }
  }

  // ---- What they mean: numbers ------------------------------------------------------------------------------

  function Num(n: Number): nat {
    ValueOf(n)
  }

  function Successor(r: Record): Option<nat> {
    if r.supersededBy.None? then None else Some(Num(r.supersededBy.value))
  }

  ghost predicate NamesOld(r: Record, n: nat) {
    exists k :: 0 <= k < |r.supersedes| && Num(r.supersedes[k]) == n
  }

  /**
    The records are numbered from 1 without a gap; the successor of a record is a later one;
    and what a record supersedes is what names it as the successor.
   */
  ghost predicate InOrder(rs: seq<Record>) {
    && (forall i :: 0 <= i < |rs| ==> Num(rs[i].number) == i + 1)
    && (forall i :: 0 <= i < |rs| && Successor(rs[i]).Some? ==> i + 1 < Successor(rs[i]).value <= |rs|)
    && (forall j, n: nat :: 0 <= j < |rs| && NamesOld(rs[j], n) ==> 1 <= n <= |rs|)
    && (forall i, j :: 0 <= i < |rs| && 0 <= j < |rs| ==> (Successor(rs[i]) == Some(j + 1) <==> NamesOld(rs[j], i + 1)))
  }

  ghost predicate IsClean(rs: seq<Record>) {
    forall p :: !IsProblem(rs, p)
  }

  // ---- Strings of digits in the order of their numbers --------------------------------------------------------

  lemma {:induction false} BeforeAppend(a: string, x: char, b: string, y: char)
    requires |a| == |b|
    ensures Before(a + [x], b + [y]) <==> Before(a, b) || (a == b && x < y)
  {
    if a != "" {
      assert (a + [x])[1..] == a[1..] + [x] && (b + [y])[1..] == b[1..] + [y];
      BeforeAppend(a[1..], x, b[1..], y);
      assert a == [a[0]] + a[1..] && b == [b[0]] + b[1..];
    }
  }

  /** Digits of one length are ordered as their numbers are, and no two spell the same number. */
  lemma {:induction false} OrderIsNumeric(a: string, b: string)
    requires |a| == |b| && AllDigits(a) && AllDigits(b)
    ensures Before(a, b) <==> ValueOf(a) < ValueOf(b)
    ensures a == b <==> ValueOf(a) == ValueOf(b)
  {
    if a != "" {
      var n := |a| - 1;
      assert a == a[..n] + [a[n]] && b == b[..n] + [b[n]];
      BeforeAppend(a[..n], a[n], b[..n], b[n]);
      OrderIsNumeric(a[..n], b[..n]);
    }
  }

  lemma {:induction false} ValueOfZeros(n: nat, s: string)
    requires AllDigits(s)
    ensures ValueOf(Zeros(n) + s) == ValueOf(s)
  {
    var t := Zeros(n) + s;
    if s != "" {
      assert t[..|t| - 1] == Zeros(n) + s[..|s| - 1];
      ValueOfZeros(n, s[..|s| - 1]);
    } else if n > 0 {
      assert t[..|t| - 1] == Zeros(n - 1) + "";
      ValueOfZeros(n - 1, "");
    }
  }

  function Pow10(k: nat): (p: nat)
    ensures p > 0
  {
    if k == 0 then 1 else 10 * Pow10(k - 1)
  }

  lemma {:induction false} PrintFits(n: nat, k: nat)
    requires k > 0 && n < Pow10(k)
    ensures |Print(n)| <= k
    decreases k
  {
    if n >= 10 {
      assert k > 1 by {
        assert Pow10(1) == 10 * Pow10(0);
      }
      PrintFits(n / 10, k - 1);
    }
  }

  lemma {:induction false} ValueFits(s: string)
    requires AllDigits(s)
    ensures ValueOf(s) < Pow10(|s|)
  {
    if s != "" {
      ValueFits(s[..|s| - 1]);
    }
  }

  /** The padded numeral of `i` is the one number of four digits that stands for it, if any does. */
  lemma PaddedIsNumber(n: Number, i: nat)
    ensures n == Padded(i) <==> Num(n) == i
  {
    var s := Print(i);
    ValueOfPrint(i);
    ValueOfZeros(if |s| < 4 then 4 - |s| else 0, s);
    if Num(n) == i {
      ValueFits(n);
      PrintFits(i, 4);
      OrderIsNumeric(n, Padded(i));
    }
  }

  // ---- A corpus without problems is in order, and the other way round ---------------------------------------------

  lemma Dense(rs: seq<Record>)
    ensures IsProblem(rs, NotDense) <==> exists i :: 0 <= i < |rs| && Num(rs[i].number) != i + 1
  {
    hide Num;
    hide Padded;
    forall i | 0 <= i < |rs| ensures rs[i].number == Padded(i + 1) <==> Num(rs[i].number) == i + 1 {
      PaddedIsNumber(rs[i].number, i + 1);
    }
  }

  ghost predicate Numbered(rs: seq<Record>) {
    forall i :: 0 <= i < |rs| ==> Num(rs[i].number) == i + 1
  }

  lemma FindsByNumber(rs: seq<Record>, n: Number)
    requires Numbered(rs)
    ensures LastWith(rs, n, |rs|) == if 1 <= Num(n) <= |rs| then Some(Num(n) - 1) else None
  {
    hide Num;
    hide LastWith;
    hide Before;
    forall j | 0 <= j < |rs| ensures rs[j].number == n <==> Num(n) == j + 1 {
      SameNumber(rs[j].number, n);
    }
    if 1 <= Num(n) <= |rs| {
      assert rs[Num(n) - 1].number == n;
    }
  }

  lemma SameNumber(a: Number, b: Number)
    ensures a == b <==> Num(a) == Num(b)
    ensures Before(a, b) <==> Num(a) < Num(b)
  {
    OrderIsNumeric(a, b);
  }

  lemma NamedByNumber(rs: seq<Record>, r: Record, n: Number)
    ensures n in r.supersedes <==> NamesOld(r, Num(n))
  {
    hide Num;
    forall k | 0 <= k < |r.supersedes| ensures r.supersedes[k] == n <==> Num(r.supersedes[k]) == Num(n) {
      SameNumber(r.supersedes[k], n);
    }
  }

  /** The forward half of a record's links, by number. */
  lemma ForwardFaults(rs: seq<Record>, i: nat)
    requires Numbered(rs) && i < |rs|
    ensures (IsFault(rs, i, NoSuccessor) || IsFault(rs, i, NotHigher) || IsFault(rs, i, NotNamedBack)) <==>
            (&& Successor(rs[i]).Some?
             && var s := Successor(rs[i]).value;
                !(i + 1 < s <= |rs| && NamesOld(rs[s - 1], i + 1)))
  {
    hide Num;
    hide LastWith;
    hide Before;
    hide NamesOld;
    var r := rs[i];
    if r.supersededBy.Some? {
      var heir := r.supersededBy.value;
      FindsByNumber(rs, heir);
      SameNumber(r.number, heir);
      if 1 <= Num(heir) <= |rs| {
        NamedByNumber(rs, rs[Num(heir) - 1], r.number);
      }
    }
  }

  ghost predicate HasBackwardFault(rs: seq<Record>, i: nat, k: nat)
    requires i < |rs|
  {
    IsFault(rs, i, NoPredecessor(k)) || IsFault(rs, i, NotLower(k)) || IsFault(rs, i, NotLinkedBack(k))
  }

  /** The backward half: one entry of the list of what a record supersedes. */
  lemma BackwardFaults(rs: seq<Record>, i: nat, k: nat)
    requires Numbered(rs) && i < |rs| && k < |rs[i].supersedes|
    ensures HasBackwardFault(rs, i, k) <==>
            var n := Num(rs[i].supersedes[k]);
            !(1 <= n < i + 1 && Successor(rs[n - 1]) == Some(i + 1))
  {
    hide Num;
    hide LastWith;
    hide Before;
    var sup := rs[i].supersedes[k];
    FindsByNumber(rs, sup);
    SameNumber(sup, rs[i].number);
    if 1 <= Num(sup) <= |rs| && rs[Num(sup) - 1].supersededBy.Some? {
      SameNumber(rs[Num(sup) - 1].supersededBy.value, rs[i].number);
    }
  }

  lemma CleanIsInOrder(rs: seq<Record>)
    requires IsClean(rs)
    ensures InOrder(rs)
  {
    hide Num;
    hide IsFault;
    Dense(rs);
    assert !IsProblem(rs, NotDense);
    assert Numbered(rs);
    hide IsProblem;
    forall i | 0 <= i < |rs| && Successor(rs[i]).Some?
      ensures i + 1 < Successor(rs[i]).value <= |rs| && NamesOld(rs[Successor(rs[i]).value - 1], i + 1)
    {
      NoFaults(rs, i);
      ForwardFaults(rs, i);
    }
    forall j, n: nat | 0 <= j < |rs| && NamesOld(rs[j], n)
      ensures 1 <= n <= |rs| && Successor(rs[n - 1]) == Some(j + 1)
    {
      var k :| 0 <= k < |rs[j].supersedes| && Num(rs[j].supersedes[k]) == n;
      NoFaults(rs, j);
      BackwardFaults(rs, j, k);
    }
  }

  lemma NoFaults(rs: seq<Record>, i: nat)
    requires IsClean(rs) && i < |rs|
    ensures forall f :: !IsFault(rs, i, f)
  {
    hide IsFault;
    forall f ensures !IsFault(rs, i, f) {
      assert !IsProblem(rs, Link(i, f));
    }
  }

  lemma InOrderIsClean(rs: seq<Record>)
    requires InOrder(rs)
    ensures IsClean(rs)
  {
    hide Num;
    hide IsFault;
    assert Numbered(rs);
    Dense(rs);
    forall p ensures !IsProblem(rs, p) {
      if p.Reused? && p.rec < |rs| {
        forall j | 0 <= j < p.rec ensures rs[j].number != rs[p.rec].number {
          assert Num(rs[j].number) == j + 1;
        }
      } else if p.Link? && p.rec < |rs| {
        InOrderHasNoFault(rs, p.rec, p.fault);
      }
    }
  }

  lemma InOrderHasNoFault(rs: seq<Record>, i: nat, f: Fault)
    requires InOrder(rs) && i < |rs|
    ensures !IsFault(rs, i, f)
  {
    hide Num;
    assert Numbered(rs);
    if f.NoSuccessor? || f.NotHigher? || f.NotNamedBack? {
      hide IsFault;
      ForwardFaults(rs, i);
    } else if f.k < |rs[i].supersedes| {
      var n := Num(rs[i].supersedes[f.k]);
      assert NamesOld(rs[i], n);
      assert Successor(rs[n - 1]) == Some(i + 1);
      hide IsFault;
      BackwardFaults(rs, i, f.k);
    }
  }

  /** The loops report nothing exactly when the corpus is in order. */
  lemma CleanIffInOrder(rs: seq<Record>)
    ensures IsClean(rs) <==> InOrder(rs)
  {
    if IsClean(rs) {
      CleanIsInOrder(rs);
    }
    if InOrder(rs) {
      InOrderIsClean(rs);
    }
  }

  // ---- Chains of supersession ------------------------------------------------------------------------------------

  /** Record numbers, each superseded by the next. */
  ghost predicate IsChain(rs: seq<Record>, chain: seq<nat>) {
    && |chain| > 0
    && (forall k :: 0 <= k < |chain| ==> 1 <= chain[k] <= |rs|)
    && forall k :: 0 < k < |chain| ==> Successor(rs[chain[k - 1] - 1]) == Some(chain[k])
  }

  /** The record that stands in the end for record `n`. */
  function Standing(rs: seq<Record>, n: nat): (m: nat)
    requires InOrder(rs) && 1 <= n <= |rs|
    ensures n <= m <= |rs| && Successor(rs[m - 1]).None?
    decreases |rs| - n
  {
    match Successor(rs[n - 1])
    case None => n
    case Some(next) => Standing(rs, next)
  }

  /** Every chain rises, so none is longer than what is left of the corpus, and all end in one record. */
  lemma {:induction false} ChainsEnd(rs: seq<Record>, chain: seq<nat>)
    requires InOrder(rs) && IsChain(rs, chain)
    ensures chain[0] + |chain| - 1 <= chain[|chain| - 1] <= Standing(rs, chain[0])
    ensures Standing(rs, chain[|chain| - 1]) == Standing(rs, chain[0])
    decreases |chain|
  {
    if |chain| > 1 {
      assert Successor(rs[chain[0] - 1]) == Some(chain[1]);
      var rest := chain[1..];
      assert IsChain(rs, rest) by {
        forall k | 0 < k < |rest| ensures Successor(rs[rest[k - 1] - 1]) == Some(rest[k]) {
          assert Successor(rs[chain[k] - 1]) == Some(chain[k + 1]);
        }
      }
      ChainsEnd(rs, rest);
    }
  }

  /** The record that stands is reached by a chain. */
  lemma {:induction false} StandingIsReached(rs: seq<Record>, n: nat) returns (chain: seq<nat>)
    requires InOrder(rs) && 1 <= n <= |rs|
    ensures IsChain(rs, chain) && chain[0] == n && chain[|chain| - 1] == Standing(rs, n)
    decreases |rs| - n
  {
    match Successor(rs[n - 1])
    case None => chain := [n];
    case Some(next) =>
      var rest := StandingIsReached(rs, next);
      chain := [n] + rest;
      forall k | 0 < k < |chain| ensures Successor(rs[chain[k - 1] - 1]) == Some(chain[k]) {
        if k > 1 {
          assert Successor(rs[rest[k - 2] - 1]) == Some(rest[k - 1]);
        }
      }
  }

  // ---- Numerals as they are written ----------------------------------------------------------------------------------

  lemma PaddedIs()
    ensures Padded(1) == "0001" && Padded(27) == "0027" && Padded(541) == "0541" && Padded(1027) == "1027"
  {
    assert Print(1) == "1" && Print(27) == "27";
    assert Print(54) == "54" && Print(541) == "541";
    assert Print(10) == "10" && Print(102) == "102" && Print(1027) == "1027";
  }
}
