/** Small value types and sequence functions shared by the models. */
module Common {

  /** A value that may be missing; usable with `:-`. */
  datatype Option<+T> = None | Some(value: T) {

    predicate IsFailure() {
      None?
    }

    function PropagateFailure<U>(): Option<U>
      requires None?
    {
      None
    }

    function Extract(): T
      requires Some?
    {
      value
    }
  }

  /** The elements of `xs` that satisfy `keep`, in order. */
  function Filter<T>(xs: seq<T>, keep: T -> bool): seq<T> {
    if xs == [] then []
    else (if keep(xs[0]) then [xs[0]] else []) + Filter(xs[1..], keep)
  }

  function Map<A, B>(f: A -> B, xs: seq<A>): (ys: seq<B>)
    ensures |ys| == |xs|
    ensures forall i :: 0 <= i < |xs| ==> ys[i] == f(xs[i])
  {
    seq(|xs|, i requires 0 <= i < |xs| => f(xs[i]))
  }

  /** Both conditions, as one. */
  function Both<T>(p: T -> bool, q: T -> bool): T -> bool {
    x => p(x) && q(x)
  }

  ghost predicate NoDuplicates<T>(xs: seq<T>) {
    forall i, j :: 0 <= i < j < |xs| ==> xs[i] != xs[j]
  }

  lemma {:induction false} FilterIn<T>(xs: seq<T>, keep: T -> bool)
    ensures forall x :: x in Filter(xs, keep) <==> x in xs && keep(x)
  {
    if xs != [] {
      FilterIn(xs[1..], keep);
      assert xs == [xs[0]] + xs[1..];
    }
  }

  lemma {:induction false} FilterAppend<T>(xs: seq<T>, ys: seq<T>, keep: T -> bool)
    ensures Filter(xs + ys, keep) == Filter(xs, keep) + Filter(ys, keep)
  {
    if xs == [] {
      assert xs + ys == ys;
    } else {
      var all := xs + ys;
      assert all[0] == xs[0] && all[1..] == xs[1..] + ys;
      FilterAppend(xs[1..], ys, keep);
      assert Filter(all, keep) == (if keep(xs[0]) then [xs[0]] else []) + (Filter(xs[1..], keep) + Filter(ys, keep));
    }
  }

  lemma {:induction false} FilterSame<T>(xs: seq<T>, keep: T -> bool, keep': T -> bool)
    requires forall x :: x in xs ==> keep(x) == keep'(x)
    ensures Filter(xs, keep) == Filter(xs, keep')
  {
    if xs != [] {
      FilterSame(xs[1..], keep, keep');
    }
  }

  lemma {:induction false} FilterAll<T>(xs: seq<T>, keep: T -> bool)
    requires forall x :: x in xs ==> keep(x)
    ensures Filter(xs, keep) == xs
  {
    if xs != [] {
      FilterAll(xs[1..], keep);
    }
  }

  lemma {:induction false} FilterNone<T>(xs: seq<T>, keep: T -> bool)
    requires forall x :: x in xs ==> !keep(x)
    ensures Filter(xs, keep) == []
  {
    if xs != [] {
      FilterNone(xs[1..], keep);
    }
  }

  lemma {:induction false} FilterFilter<T>(xs: seq<T>, p: T -> bool, q: T -> bool)
    ensures Filter(Filter(xs, p), q) == Filter(xs, Both(p, q))
  {
    if xs != [] {
      FilterFilter(xs[1..], p, q);
      FilterAppend(if p(xs[0]) then [xs[0]] else [], Filter(xs[1..], p), q);
    }
  }

  lemma {:induction false} FilterNoDuplicates<T>(xs: seq<T>, keep: T -> bool)
    requires NoDuplicates(xs)
    ensures NoDuplicates(Filter(xs, keep))
  {
    if xs != [] {
      FilterNoDuplicates(xs[1..], keep);
      FilterIn(xs[1..], keep);
    }
  }

  lemma NoDuplicatesConcat<T>(xs: seq<T>, ys: seq<T>)
    requires NoDuplicates(xs) && NoDuplicates(ys)
    requires forall x :: x in xs ==> x !in ys
    ensures NoDuplicates(xs + ys)
  {
    forall i, j | 0 <= i < j < |xs + ys| ensures (xs + ys)[i] != (xs + ys)[j] {
      if i < |xs| <= j {
        assert xs[i] in xs && ys[j - |xs|] in ys;
      }
    }
  }

  /** Sequences without duplicates and with the same members are the same up to order. */
  lemma {:induction false} SameMembersSameMultiset<T>(xs: seq<T>, ys: seq<T>)
    requires NoDuplicates(xs) && NoDuplicates(ys)
    requires forall x :: x in xs <==> x in ys
    ensures multiset(xs) == multiset(ys)
  {
    forall x ensures multiset(xs)[x] == multiset(ys)[x] {
      NoDuplicatesOnce(xs, x);
      NoDuplicatesOnce(ys, x);
    }
  }

  lemma {:induction false} NoDuplicatesOnce<T>(xs: seq<T>, x: T)
    requires NoDuplicates(xs)
    ensures multiset(xs)[x] == if x in xs then 1 else 0
  {
    if xs != [] {
      assert xs == [xs[0]] + xs[1..];
      NoDuplicatesOnce(xs[1..], x);
    }
  }
}
