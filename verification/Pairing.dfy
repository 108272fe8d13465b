/** `_pair` of `scripts/check_anchor_drift.py`: which base anchor is compared with which head anchor. */
module Pairing {
  import opened Common
  import opened Anchors

  ghost predicate DistinctObjects(xs: seq<Cited>) {
    forall i, j :: 0 <= i < j < |xs| ==> xs[i].id != xs[j].id
  }

  predicate SameShape(b: Anchor, h: Anchor) {
    b.end.None? == h.end.None?
  }

  /** What must agree when the doc line was reworded around an anchor. */
  datatype Signature = Signature(path: string, symbol: Option<string>, range: bool, width: Option<int>)

  function SignatureOf(a: Anchor): Signature {
    Signature(a.path, a.symbol, a.end.Some?, if a.end.None? then None else Some(a.end.value - a.start))
  }

  // ---- The intended matching, as a relation -----------------------------------------

  function OnLine(keyOf: nat -> string, key: string): Cited -> bool {
    (c: Cited) => keyOf(c.anchor.line) == key
  }

  function Signed(sig: Signature): Cited -> bool {
    (c: Cited) => SignatureOf(c.anchor) == sig
  }

  function NotSigned(sig: Signature): Cited -> bool {
    (c: Cited) => SignatureOf(c.anchor) != sig
  }

  /** The anchors whose doc line normalises to `key`, in order. */
  function Group(xs: seq<Cited>, keyOf: nat -> string, key: string): seq<Cited> {
    Filter(xs, OnLine(keyOf, key))
  }

  function SignedBy(xs: seq<Cited>, sig: Signature): seq<Cited> {
    Filter(xs, Signed(sig))
  }

  /** `b` and `h` stand at the same place of the two lists and have the same shape. */
  ghost predicate Zipped(bs: seq<Cited>, hs: seq<Cited>, b: Cited, h: Cited) {
    SameShape(b.anchor, h.anchor) && exists k :: 0 <= k < |bs| && k < |hs| && bs[k] == b && hs[k] == h
  }

  ghost predicate IsOnly(xs: seq<Cited>, x: Cited) {
    |xs| == 1 && xs[0] == x
  }

  /** `b` and `h` are the only anchors of `b`'s signature in their lists. */
  ghost predicate OnlyOnes(bs: seq<Cited>, hs: seq<Cited>, b: Cited, h: Cited) {
    IsOnly(SignedBy(bs, SignatureOf(b.anchor)), b) && IsOnly(SignedBy(hs, SignatureOf(b.anchor)), h)
  }

  /** Both sides of one comparison: the anchors, and each document's normalised lines. */
  datatype Sides = Sides(base: seq<Cited>, head: seq<Cited>, baseKey: nat -> string, headKey: nat -> string) {

    ghost predicate Valid() {
      DistinctObjects(base) && DistinctObjects(head)
    }

    /** Anchors at the same place of one normalised line, when neither changed its extent's shape. */
    ghost predicate PairedByLine(b: Cited, h: Cited) {
      var key := baseKey(b.anchor.line);
      Zipped(Group(base, baseKey, key), Group(head, headKey, key), b, h)
    }

    /** No anchor of the head side stands at the same place. */
    ghost function BaseFree(): Cited -> bool {
      (b: Cited) => forall h :: !PairedByLine(b, h)
    }

    ghost function HeadFree(): Cited -> bool {
      (h: Cited) => forall b :: !PairedByLine(b, h)
    }

    ghost function FreeBase(): seq<Cited> {
      Filter(base, BaseFree())
    }

    ghost function FreeHead(): seq<Cited> {
      Filter(head, HeadFree())
    }

    /** The only free anchors of their signature, one on each side. */
    ghost predicate PairedBySignature(b: Cited, h: Cited) {
      OnlyOnes(FreeBase(), FreeHead(), b, h)
    }

    ghost predicate Paired(b: Cited, h: Cited) {
      PairedByLine(b, h) || PairedBySignature(b, h)
    }

    /** Nothing on the head side to compare this base anchor with. */
    ghost function Alone(): Cited -> bool {
      (b: Cited) => forall h :: !Paired(b, h)
    }
  }

  // ---- The program ------------------------------------------------------------------

  /** A dict of lists, filled in order: the keys as first seen, and the list of each. */
  method GroupByLine(xs: seq<Cited>, keyOf: nat -> string) returns (keys: seq<string>, groups: map<string, seq<Cited>>)
    ensures NoDuplicates(keys)
    ensures forall key :: key in keys <==> key in groups
    ensures forall key :: key in groups <==> exists c :: c in xs && keyOf(c.anchor.line) == key
    ensures forall key :: key in groups ==> groups[key] == Group(xs, keyOf, key)
  {
    keys, groups := [], map[];
    for i := 0 to |xs|
      invariant NoDuplicates(keys)
      invariant forall key :: key in keys <==> key in groups
      invariant forall key :: key in groups <==> exists c :: c in xs[..i] && keyOf(c.anchor.line) == key
      invariant forall key :: key in groups ==> groups[key] == Group(xs[..i], keyOf, key)
    {
      var key := keyOf(xs[i].anchor.line);
      assert xs[..i + 1] == xs[..i] + [xs[i]];
      forall k ensures Group(xs[..i + 1], keyOf, k) == Group(xs[..i], keyOf, k) + if k == key then [xs[i]] else [] {
        GroupSnoc(xs[..i], xs[i], keyOf, k);
      }
      if key !in groups {
        EmptyGroup(xs[..i], keyOf, key);
        keys := keys + [key];
        groups := groups[key := []];
      }
      groups := groups[key := groups[key] + [xs[i]]];
    }
    assert xs[..|xs|] == xs;
  }

  lemma GroupSnoc(xs: seq<Cited>, x: Cited, keyOf: nat -> string, key: string)
    ensures Group(xs + [x], keyOf, key) == Group(xs, keyOf, key) + if keyOf(x.anchor.line) == key then [x] else []
  {
    FilterAppend(xs, [x], OnLine(keyOf, key));
  }

  lemma EmptyGroup(xs: seq<Cited>, keyOf: nat -> string, key: string)
    requires forall c :: c in xs ==> keyOf(c.anchor.line) != key
    ensures Group(xs, keyOf, key) == []
  {
    FilterNone(xs, OnLine(keyOf, key));
  }

  /** Two groups zipped, without the pairs whose extent changed shape. */
  method ZipSameShape(bs: seq<Cited>, hs: seq<Cited>) returns (pairs: seq<(Cited, Cited)>)
    requires NoDuplicates(bs)
    ensures NoDuplicates(pairs)
    ensures forall b, h :: (b, h) in pairs <==> Zipped(bs, hs, b, h)
  {
    pairs := [];
    var n := if |bs| <= |hs| then |bs| else |hs|;
    for k := 0 to n
      invariant NoDuplicates(pairs)
      invariant forall b, h :: (b, h) in pairs <==>
        exists k' :: 0 <= k' < k && bs[k'] == b && hs[k'] == h && SameShape(b.anchor, h.anchor)
    {
      if bs[k].anchor.end.None? == hs[k].anchor.end.None? {
        assert (bs[k], hs[k]) !in pairs;
        pairs := pairs + [(bs[k], hs[k])];
      }
    }
  }

  /** The first pass: anchors of the same normalised line, taken in order. */
  method PairByLine(s: Sides) returns (pairs: seq<(Cited, Cited)>)
    requires s.Valid()
    ensures NoDuplicates(pairs)
    ensures forall b, h :: (b, h) in pairs <==> s.PairedByLine(b, h)
  {
    var keys, byKey := GroupByLine(s.base, s.baseKey);
    var _, headByKey := GroupByLine(s.head, s.headKey);
    pairs := [];
    for i := 0 to |keys|
      invariant NoDuplicates(pairs)
      invariant forall b, h :: (b, h) in pairs <==> s.PairedByLine(b, h) && s.baseKey(b.anchor.line) in keys[..i]
    {
      var key := keys[i];
      if key !in headByKey {
        EmptyGroup(s.head, s.headKey, key);
      }
      var same := PairsOfKey(s, key, byKey[key], if key in headByKey then headByKey[key] else []);
      forall p | p in pairs ensures p !in same {
        assert (p.0, p.1) in pairs && key !in keys[..i];
      }
      NoDuplicatesConcat(pairs, same);
      pairs := pairs + same;
    }
    forall b, h | s.PairedByLine(b, h) ensures s.baseKey(b.anchor.line) in keys {
      GroupMembers(s.base, s.baseKey, s.baseKey(b.anchor.line));
    }
    assert keys[..|keys|] == keys;
  }

  method PairsOfKey(s: Sides, key: string, bs: seq<Cited>, hs: seq<Cited>) returns (same: seq<(Cited, Cited)>)
    requires s.Valid() && bs == Group(s.base, s.baseKey, key) && hs == Group(s.head, s.headKey, key)
    ensures NoDuplicates(same)
    ensures forall b, h :: (b, h) in same <==> s.PairedByLine(b, h) && s.baseKey(b.anchor.line) == key
  {
    GroupMembers(s.base, s.baseKey, key);
    same := ZipSameShape(bs, hs);
    hide Zipped;
    forall b, h ensures (b, h) in same <==> s.PairedByLine(b, h) && s.baseKey(b.anchor.line) == key {
      ZippedHasKey(s, key, b, h);
    }
  }

  lemma ZippedHasKey(s: Sides, key: string, b: Cited, h: Cited)
    requires s.Valid()
    ensures Zipped(Group(s.base, s.baseKey, key), Group(s.head, s.headKey, key), b, h)
       <==> s.PairedByLine(b, h) && s.baseKey(b.anchor.line) == key
  {
    GroupMembers(s.base, s.baseKey, key);
  }

  lemma GroupMembers(xs: seq<Cited>, keyOf: nat -> string, key: string)
    requires DistinctObjects(xs)
    ensures forall c :: c in Group(xs, keyOf, key) <==> c in xs && keyOf(c.anchor.line) == key
    ensures NoDuplicates(Group(xs, keyOf, key))
  {
    FilterIn(xs, OnLine(keyOf, key));
    FilterNoDuplicates(xs, OnLine(keyOf, key));
  }

  /** Python's `list.remove`: drop the first element equal to `a` by value. */
  function RemoveFirst(xs: seq<Cited>, a: Anchor): seq<Cited>
    requires exists c :: c in xs && c.anchor == a
  {
    if xs[0].anchor == a then xs[1..] else [xs[0]] + RemoveFirst(xs[1..], a)
  }

  /** Removing by value is safe when the signature is unique: it removes that very object. */
  lemma {:induction false} RemoveFirstIsFilter(xs: seq<Cited>, x: Cited)
    requires IsOnly(SignedBy(xs, SignatureOf(x.anchor)), x)
    ensures x in xs
    ensures RemoveFirst(xs, x.anchor) == Filter(xs, NotSigned(SignatureOf(x.anchor)))
  {
    var sig := SignatureOf(x.anchor);
    FilterIn(xs, Signed(sig));
    assert x in SignedBy(xs, sig);
    if xs[0].anchor == x.anchor {
      assert SignedBy(xs, sig)[0] == xs[0];
      assert SignedBy(xs[1..], sig) == [];
      FilterIn(xs[1..], Signed(sig));
      FilterAll(xs[1..], NotSigned(sig));
    } else {
      assert xs[0] in xs;
      assert !Signed(sig)(xs[0]);
      RemoveFirstIsFilter(xs[1..], x);
    }
  }

  /** What the second pass leaves of one side once the signatures in `done` have been tried. */
  ghost function Left(xs: seq<Cited>, others: seq<Cited>, done: set<Signature>): seq<Cited> {
    Filter(xs, NotTaken(xs, others, done))
  }

  ghost function NotTaken(xs: seq<Cited>, others: seq<Cited>, done: set<Signature>): Cited -> bool {
    (c: Cited) => !(SignatureOf(c.anchor) in done && Unique(xs, others, SignatureOf(c.anchor)))
  }

  ghost predicate Unique(xs: seq<Cited>, others: seq<Cited>, sig: Signature) {
    |SignedBy(xs, sig)| == 1 && |SignedBy(others, sig)| == 1
  }

  /** The anchors whose signature does not single out one anchor on each side. */
  ghost function Unmatched(xs: seq<Cited>, others: seq<Cited>): Cited -> bool {
    (c: Cited) => !Unique(xs, others, SignatureOf(c.anchor))
  }

  /** A signature that has not been tried still signs what it signed at the start. */
  lemma LeftKeepsUntried(xs: seq<Cited>, others: seq<Cited>, done: set<Signature>, sig: Signature)
    requires sig !in done
    ensures SignedBy(Left(xs, others, done), sig) == SignedBy(xs, sig)
  {
    FilterFilter(xs, NotTaken(xs, others, done), Signed(sig));
    FilterSame(xs, Both(NotTaken(xs, others, done), Signed(sig)), Signed(sig));
  }

  lemma LeftRemoves(xs: seq<Cited>, others: seq<Cited>, done: set<Signature>, sig: Signature)
    requires sig !in done && Unique(xs, others, sig)
    ensures Filter(Left(xs, others, done), NotSigned(sig)) == Left(xs, others, done + {sig})
  {
    FilterFilter(xs, NotTaken(xs, others, done), NotSigned(sig));
    FilterSame(xs, Both(NotTaken(xs, others, done), NotSigned(sig)), NotTaken(xs, others, done + {sig}));
  }

  lemma LeftSkips(xs: seq<Cited>, others: seq<Cited>, done: set<Signature>, sig: Signature)
    requires !Unique(xs, others, sig)
    ensures Left(xs, others, done) == Left(xs, others, done + {sig})
  {
    FilterSame(xs, NotTaken(xs, others, done), NotTaken(xs, others, done + {sig}));
  }

  /** Trying one more signature: `remove` by value takes exactly the anchor it singles out. */
  lemma TryingOne(xs: seq<Cited>, others: seq<Cited>, done: set<Signature>, sig: Signature)
    requires sig !in done
    ensures SignedBy(Left(xs, others, done), sig) == SignedBy(xs, sig)
    ensures !Unique(xs, others, sig) ==> Left(xs, others, done) == Left(xs, others, done + {sig})
    ensures Unique(xs, others, sig) ==>
      var a := SignedBy(xs, sig)[0].anchor;
      (exists c :: c in Left(xs, others, done) && c.anchor == a) && RemoveFirst(Left(xs, others, done), a) == Left(xs, others, done + {sig})
  {
    LeftKeepsUntried(xs, others, done, sig);
    if Unique(xs, others, sig) {
      var x := SignedBy(xs, sig)[0];
      SignedByHas(xs, sig);
      RemoveFirstIsFilter(Left(xs, others, done), x);
      LeftRemoves(xs, others, done, sig);
    } else {
      LeftSkips(xs, others, done, sig);
    }
  }

  /** `pairs` are exactly the pairs the signatures in `done` single out, each once. */
  ghost predicate TriedPairs(bs: seq<Cited>, hs: seq<Cited>, done: set<Signature>, pairs: seq<(Cited, Cited)>) {
    NoDuplicates(pairs) && forall b, h :: (b, h) in pairs <==> SignatureOf(b.anchor) in done && OnlyOnes(bs, hs, b, h)
  }

  lemma AddPair(bs: seq<Cited>, hs: seq<Cited>, done: set<Signature>, sig: Signature, pairs: seq<(Cited, Cited)>)
    requires sig !in done && Unique(bs, hs, sig) && TriedPairs(bs, hs, done, pairs)
    ensures TriedPairs(bs, hs, done + {sig}, pairs + [(SignedBy(bs, sig)[0], SignedBy(hs, sig)[0])])
  {
    var pair := (SignedBy(bs, sig)[0], SignedBy(hs, sig)[0]);
    SignedByHas(bs, sig);
    OnlyOnesOfSignature(bs, hs, sig);
    NoDuplicatesConcat(pairs, [pair]);
    forall b, h ensures (b, h) in pairs + [pair] <==> SignatureOf(b.anchor) in done + {sig} && OnlyOnes(bs, hs, b, h) {
      assert (b, h) in pairs + [pair] <==> (b, h) in pairs || (b, h) == pair;
    }
  }

  lemma AddNoPair(bs: seq<Cited>, hs: seq<Cited>, done: set<Signature>, sig: Signature, pairs: seq<(Cited, Cited)>)
    requires !Unique(bs, hs, sig) && TriedPairs(bs, hs, done, pairs)
    ensures TriedPairs(bs, hs, done + {sig}, pairs)
  {
    OnlyOnesOfSignature(bs, hs, sig);
  }

  /** The second pass: pair what is left by a signature unique on both sides, in any order of signatures. */
  method PairBySignature(freeBase: seq<Cited>, freeHead: seq<Cited>) returns (pairs: seq<(Cited, Cited)>, unpaired: seq<Cited>)
    ensures NoDuplicates(pairs)
    ensures forall b, h :: (b, h) in pairs <==> OnlyOnes(freeBase, freeHead, b, h)
    ensures unpaired == Filter(freeBase, Unmatched(freeBase, freeHead))
  {
    var todo := (set c | c in freeBase :: SignatureOf(c.anchor)) * (set c | c in freeHead :: SignatureOf(c.anchor));
    ghost var done: set<Signature> := {};
    var free := freeHead;
    pairs, unpaired := [], freeBase;
    forall sig | Unique(freeBase, freeHead, sig) ensures sig in todo {
      SignedByHas(freeBase, sig);
      SignedByHas(freeHead, sig);
    }
    LeftAtStart(freeBase, freeHead);
    LeftAtStart(freeHead, freeBase);
    while todo != {}
      invariant forall sig :: sig in todo ==> sig !in done
      invariant forall sig :: Unique(freeBase, freeHead, sig) ==> sig in done || sig in todo
      invariant TriedPairs(freeBase, freeHead, done, pairs)
      invariant unpaired == Left(freeBase, freeHead, done)
      invariant free == Left(freeHead, freeBase, done)
    {
      var sig :| sig in todo;
      todo := todo - {sig};
      TryingOne(freeBase, freeHead, done, sig);
      TryingOne(freeHead, freeBase, done, sig);
      var bs, hs := SignedBy(unpaired, sig), SignedBy(free, sig);
      if |bs| == 1 && |hs| == 1 {
        AddPair(freeBase, freeHead, done, sig, pairs);
        pairs := pairs + [(bs[0], hs[0])];
        unpaired := RemoveFirst(unpaired, bs[0].anchor);
        free := RemoveFirst(free, hs[0].anchor);
      } else {
        AddNoPair(freeBase, freeHead, done, sig, pairs);
      }
      done := done + {sig};
    }
    FilterSame(freeBase, NotTaken(freeBase, freeHead, done), Unmatched(freeBase, freeHead));
  }

  lemma OnlyOnesOfSignature(bs: seq<Cited>, hs: seq<Cited>, sig: Signature)
    ensures forall b: Cited, h: Cited :: SignatureOf(b.anchor) == sig && OnlyOnes(bs, hs, b, h) <==> IsOnly(SignedBy(bs, sig), b) && IsOnly(SignedBy(hs, sig), h)
  {
    SignedByHas(bs, sig);
  }

  lemma SignedByHas(xs: seq<Cited>, sig: Signature)
    ensures forall c :: c in SignedBy(xs, sig) ==> c in xs && SignatureOf(c.anchor) == sig
    ensures SignedBy(xs, sig) != [] ==> SignedBy(xs, sig)[0] in xs && SignatureOf(SignedBy(xs, sig)[0].anchor) == sig
  {
    FilterIn(xs, Signed(sig));
  }

  lemma LeftAtStart(xs: seq<Cited>, others: seq<Cited>)
    ensures Left(xs, others, {}) == xs
  {
    FilterAll(xs, NotTaken(xs, others, {}));
  }

  function NotIn(ids: set<nat>): Cited -> bool {
    (c: Cited) => c.id !in ids
  }

  /**
    The matching the program computes is the intended relation, whatever order it tries the
    signatures in, and what is left is exactly the base anchors without a partner, in order.
   */
  method Pair(s: Sides) returns (pairs: seq<(Cited, Cited)>, unpaired: seq<Cited>)
    requires s.Valid()
    ensures NoDuplicates(pairs)
    ensures forall b, h :: (b, h) in pairs <==> s.Paired(b, h)
    ensures unpaired == Filter(s.base, s.Alone())
  {
    var byLine := PairByLine(s);
    var pairedBase := set p | p in byLine :: p.0.id;
    var pairedHead := set p | p in byLine :: p.1.id;
    var freeBase := Filter(s.base, NotIn(pairedBase));
    var freeHead := Filter(s.head, NotIn(pairedHead));
    FreeSides(s, byLine, pairedBase, pairedHead);
    var bySignature;
    bySignature, unpaired := PairBySignature(freeBase, freeHead);
    pairs := byLine + bySignature;
    PassesAreDisjoint(s, byLine, bySignature);
    AloneIsUnmatched(s);
  }

  lemma PassesAreDisjoint(s: Sides, byLine: seq<(Cited, Cited)>, bySignature: seq<(Cited, Cited)>)
    requires NoDuplicates(byLine) && NoDuplicates(bySignature)
    requires forall b, h :: (b, h) in byLine <==> s.PairedByLine(b, h)
    requires forall b, h :: (b, h) in bySignature <==> s.PairedBySignature(b, h)
    ensures NoDuplicates(byLine + bySignature)
    ensures forall b, h :: (b, h) in byLine + bySignature <==> s.Paired(b, h)
  {
    forall p | p in byLine ensures p !in bySignature {
      assert (p.0, p.1) in byLine;
      FreeIsUnpaired(s, p.0, p.1);
      assert (p.0, p.1) !in bySignature;
    }
    NoDuplicatesConcat(byLine, bySignature);
  }

  /** Identity tells the anchors apart, so the two id sets leave exactly the free anchors. */
  lemma FreeSides(s: Sides, byLine: seq<(Cited, Cited)>, pairedBase: set<nat>, pairedHead: set<nat>)
    requires s.Valid()
    requires forall b, h :: (b, h) in byLine <==> s.PairedByLine(b, h)
    requires pairedBase == set p | p in byLine :: p.0.id
    requires pairedHead == set p | p in byLine :: p.1.id
    ensures Filter(s.base, NotIn(pairedBase)) == s.FreeBase()
    ensures Filter(s.head, NotIn(pairedHead)) == s.FreeHead()
  {
    forall b | b in s.base ensures NotIn(pairedBase)(b) == s.BaseFree()(b) {
      if b.id in pairedBase {
        var p :| p in byLine && p.0.id == b.id;
        assert s.PairedByLine(p.0, p.1);
        PairedIsOfBothSides(s, p.0, p.1);
        assert p.0 == b;
      } else {
        forall h ensures !s.PairedByLine(b, h) {
          assert (b, h) in byLine ==> (b, h).0.id in pairedBase;
        }
      }
    }
    forall h | h in s.head ensures NotIn(pairedHead)(h) == s.HeadFree()(h) {
      if h.id in pairedHead {
        var p :| p in byLine && p.1.id == h.id;
        assert s.PairedByLine(p.0, p.1);
        PairedIsOfBothSides(s, p.0, p.1);
        assert p.1 == h;
      } else {
        forall b ensures !s.PairedByLine(b, h) {
          assert (b, h) in byLine ==> (b, h).1.id in pairedHead;
        }
      }
    }
    FilterSame(s.base, NotIn(pairedBase), s.BaseFree());
    FilterSame(s.head, NotIn(pairedHead), s.HeadFree());
  }

  lemma FreeIsUnpaired(s: Sides, b: Cited, h: Cited)
    requires s.PairedByLine(b, h)
    ensures forall h' :: !s.PairedBySignature(b, h')
    ensures forall b' :: !s.PairedBySignature(b', h)
  {
    forall h' ensures !s.PairedBySignature(b, h') {
      SignedByHas(s.FreeBase(), SignatureOf(b.anchor));
      FilterIn(s.base, s.BaseFree());
    }
    forall b' ensures !s.PairedBySignature(b', h) {
      SignedByHas(s.FreeHead(), SignatureOf(b'.anchor));
      FilterIn(s.head, s.HeadFree());
    }
  }

  lemma AloneIff(s: Sides, b: Cited)
    requires b in s.base
    ensures s.BaseFree()(b) && Unmatched(s.FreeBase(), s.FreeHead())(b) <==> s.Alone()(b)
  {
    var sig, bs, hs := SignatureOf(b.anchor), s.FreeBase(), s.FreeHead();
    FilterIn(s.base, s.BaseFree());
    FilterIn(bs, Signed(sig));
    if s.BaseFree()(b) && Unique(bs, hs, sig) {
      assert b in SignedBy(bs, sig);
      assert s.PairedBySignature(b, SignedBy(hs, sig)[0]);
      assert s.Paired(b, SignedBy(hs, sig)[0]);
    } else if s.BaseFree()(b) {
      forall h ensures !s.Paired(b, h) {
      }
    } else {
      var h :| s.PairedByLine(b, h);
      assert s.Paired(b, h);
    }
  }

  lemma AloneIsUnmatched(s: Sides)
    ensures Filter(s.FreeBase(), Unmatched(s.FreeBase(), s.FreeHead())) == Filter(s.base, s.Alone())
  {
    var unmatched := Unmatched(s.FreeBase(), s.FreeHead());
    forall b | b in s.base ensures Both(s.BaseFree(), unmatched)(b) == s.Alone()(b) {
      AloneIff(s, b);
    }
    FilterFilter(s.base, s.BaseFree(), unmatched);
    FilterSame(s.base, Both(s.BaseFree(), unmatched), s.Alone());
  }

  // ---- What the matching guarantees -------------------------------------------------

  lemma PairedIsOfBothSides(s: Sides, b: Cited, h: Cited)
    requires s.Valid() && s.Paired(b, h)
    ensures b in s.base && h in s.head
    ensures b.anchor.end.Some? == h.anchor.end.Some?
  {
    if s.PairedByLine(b, h) {
      GroupMembers(s.base, s.baseKey, s.baseKey(b.anchor.line));
      GroupMembers(s.head, s.headKey, s.baseKey(b.anchor.line));
    } else {
      SignedByHas(s.FreeBase(), SignatureOf(b.anchor));
      SignedByHas(s.FreeHead(), SignatureOf(b.anchor));
      FilterIn(s.base, s.BaseFree());
      FilterIn(s.head, s.HeadFree());
    }
  }

  /** No base anchor and no head anchor is compared twice. */
  lemma PairedIsOneToOne(s: Sides, b: Cited, h: Cited, b': Cited, h': Cited)
    requires s.Valid() && s.Paired(b, h) && s.Paired(b', h')
    ensures b == b' <==> h == h'
  {
    if s.PairedByLine(b, h) {
      FreeIsUnpaired(s, b, h);
    }
    if s.PairedByLine(b', h') {
      FreeIsUnpaired(s, b', h');
    }
    if s.PairedByLine(b, h) && s.PairedByLine(b', h') {
      PlacesAreOneToOne(s, b, h, b', h');
    }
    SignedByHas(s.FreeHead(), SignatureOf(b.anchor));
    SignedByHas(s.FreeHead(), SignatureOf(b'.anchor));
  }

  lemma PlacesAreOneToOne(s: Sides, b: Cited, h: Cited, b': Cited, h': Cited)
    requires s.Valid() && s.PairedByLine(b, h) && s.PairedByLine(b', h')
    ensures b == b' <==> h == h'
  {
    GroupMembers(s.base, s.baseKey, s.baseKey(b.anchor.line));
    GroupMembers(s.head, s.headKey, s.baseKey(b.anchor.line));
    GroupMembers(s.head, s.headKey, s.baseKey(b'.anchor.line));
  }

  function Firsts(pairs: seq<(Cited, Cited)>): (firsts: seq<Cited>)
    ensures |firsts| == |pairs|
    ensures forall i :: 0 <= i < |pairs| ==> firsts[i] == pairs[i].0
  {
    seq(|pairs|, i requires 0 <= i < |pairs| => pairs[i].0)
  }

  /** Every base anchor is paired or left over, and exactly once. */
  lemma PairsAndLeftoversAreTheBase(s: Sides, pairs: seq<(Cited, Cited)>, unpaired: seq<Cited>)
    requires s.Valid() && NoDuplicates(pairs)
    requires forall b, h :: (b, h) in pairs <==> s.Paired(b, h)
    requires unpaired == Filter(s.base, s.Alone())
    ensures multiset(Firsts(pairs)) + multiset(unpaired) == multiset(s.base)
    ensures |pairs| + |unpaired| == |s.base|
  {
    var firsts := Firsts(pairs);
    forall i, j | 0 <= i < j < |pairs| ensures firsts[i] != firsts[j] {
      assert (pairs[i].0, pairs[i].1) in pairs && (pairs[j].0, pairs[j].1) in pairs;
      PairedIsOneToOne(s, pairs[i].0, pairs[i].1, pairs[j].0, pairs[j].1);
    }
    FilterIn(s.base, s.Alone());
    FilterNoDuplicates(s.base, s.Alone());
    forall b ensures b in firsts <==> exists h :: s.Paired(b, h) {
      if b in firsts {
        var i :| 0 <= i < |firsts| && firsts[i] == b;
        assert (b, pairs[i].1) in pairs;
      }
      if h :| s.Paired(b, h) {
        var i :| 0 <= i < |pairs| && pairs[i] == (b, h);
        assert firsts[i] == b;
      }
    }
    forall b, h | s.Paired(b, h) ensures b in s.base {
      PairedIsOfBothSides(s, b, h);
    }
    NoDuplicatesConcat(firsts, unpaired);
    SameMembersSameMultiset(firsts + unpaired, s.base);
    assert |multiset(firsts + unpaired)| == |multiset(s.base)|;
  }

  // ---- What the second pass compares --------------------------------------------------------------------

  /** The written path, the symbol, the shape and the width agree. */
  ghost predicate Agree(a: Anchor, b: Anchor) {
    && a.path == b.path && a.symbol == b.symbol && a.end.Some? == b.end.Some?
    && (a.end.Some? ==> a.end.value - a.start == b.end.value - b.start)
  }

  lemma SignaturesAgree(a: Anchor, b: Anchor)
    ensures SignatureOf(a) == SignatureOf(b) <==> Agree(a, b)
  {
  }

  lemma OnlyIff(xs: seq<Cited>, a: Anchor, x: Cited)
    requires DistinctObjects(xs)
    ensures IsOnly(SignedBy(xs, SignatureOf(a)), x) <==>
      x in xs && Agree(x.anchor, a) && forall y :: y in xs && Agree(y.anchor, a) ==> y == x
  {
    var sig := SignatureOf(a);
    var signed := SignedBy(xs, sig);
    FilterIn(xs, Signed(sig));
    forall y: Cited ensures y in signed <==> y in xs && Agree(y.anchor, a) {
      SignaturesAgree(y.anchor, a);
    }
    DistinctFiltered(xs, Signed(sig));
    hide SignedBy;
    if IsOnly(signed, x) {
      assert signed == [x];
    }
    if x in xs && Agree(x.anchor, a) && forall y :: y in xs && Agree(y.anchor, a) ==> y == x {
      OnlyElement(signed, x);
    }
  }

  lemma OnlyElement<T>(xs: seq<T>, x: T)
    requires NoDuplicates(xs) && x in xs && forall y :: y in xs ==> y == x
    ensures |xs| == 1 && xs[0] == x
  {
    assert xs[0] in xs;
    if |xs| > 1 {
      TwoElements(xs, x);
    }
  }

  lemma TwoElements<T>(xs: seq<T>, x: T)
    requires NoDuplicates(xs) && |xs| > 1
    ensures exists y :: y in xs && y != x
  {
    assert xs[0] in xs && xs[1] in xs && xs[0] != xs[1];
  }

  lemma DistinctFiltered(xs: seq<Cited>, keep: Cited -> bool)
    requires DistinctObjects(xs)
    ensures NoDuplicates(Filter(xs, keep))
  {
    assert NoDuplicates(xs);
    FilterNoDuplicates(xs, keep);
  }

  /** The second pass pairs the only anchors that agree, among those the first pass left free on both sides. */
  lemma SecondPassIff(s: Sides, b: Cited, h: Cited)
    requires s.Valid()
    ensures s.PairedBySignature(b, h) <==>
      && b in s.FreeBase() && h in s.FreeHead() && Agree(h.anchor, b.anchor)
      && (forall c :: c in s.FreeBase() && Agree(c.anchor, b.anchor) ==> c == b)
      && (forall c :: c in s.FreeHead() && Agree(c.anchor, b.anchor) ==> c == h)
    ensures b in s.FreeBase() <==> b in s.base && forall g :: !s.PairedByLine(b, g)
    ensures h in s.FreeHead() <==> h in s.head && forall g :: !s.PairedByLine(g, h)
  {
    FilterIn(s.base, s.BaseFree());
    FilterIn(s.head, s.HeadFree());
    FilteredStaysDistinct(s.base, s.BaseFree());
    FilteredStaysDistinct(s.head, s.HeadFree());
    OnlyIff(s.FreeBase(), b.anchor, b);
    OnlyIff(s.FreeHead(), b.anchor, h);
  }

  lemma {:induction false} FilteredStaysDistinct(xs: seq<Cited>, keep: Cited -> bool)
    requires DistinctObjects(xs)
    ensures DistinctObjects(Filter(xs, keep))
  {
    if xs != [] {
      FilteredStaysDistinct(xs[1..], keep);
      FilterIn(xs[1..], keep);
      var rest := Filter(xs[1..], keep);
      forall i | 0 <= i < |rest| ensures rest[i].id != xs[0].id {
        assert rest[i] in xs[1..];
      }
    }
  }
}
