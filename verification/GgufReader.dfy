/**
  A sequential reader of the format, after the "File Structure" section of the GGUF
  specification, and the round trip with the writer. It reads the value and tensor types the
  writer emits and gives up on any other.
 */
module GgufReader {
  import opened Bytes
  import opened Common
  import opened Gguf

  function ReadBytes(bs: seq<byte>, pos: nat, k: nat): Option<(seq<byte>, nat)> {
    if pos + k <= |bs| then Some((bs[pos..pos + k], pos + k)) else None
  }

  function ReadUnsigned(bs: seq<byte>, pos: nat, k: nat): Option<(nat, nat)> {
    var (word, next) :- ReadBytes(bs, pos, k);
    Some((Unpack(word), next))
  }

  function ReadSigned(bs: seq<byte>, pos: nat, k: nat): Option<(int, nat)> {
    var (word, next) :- ReadBytes(bs, pos, k);
    Some((UnpackSigned(word), next))
  }

  function ReadText(bs: seq<byte>, pos: nat): Option<(Text, nat)> {
    var (length, next) :- ReadUnsigned(bs, pos, 8);
    ReadBytes(bs, next, length)
  }

  function ReadTexts(bs: seq<byte>, pos: nat, n: nat): Option<(seq<Text>, nat)> {
    if n == 0 then Some(([], pos))
    else
      var (before, next) :- ReadTexts(bs, pos, n - 1);
      var (s, end) :- ReadText(bs, next);
      Some((before + [s], end))
  }

  function ReadInts(bs: seq<byte>, pos: nat, n: nat): Option<(seq<int>, nat)> {
    if n == 0 then Some(([], pos))
    else
      var (before, next) :- ReadInts(bs, pos, n - 1);
      var (i, end) :- ReadSigned(bs, next, 4);
      Some((before + [i], end))
  }

  function ReadArray(bs: seq<byte>, pos: nat): Option<(Value, nat)> {
    var (kind, afterKind) :- ReadUnsigned(bs, pos, 4);
    var (n, next) :- ReadUnsigned(bs, afterKind, 8);
    if kind == T_STRING then
      var (ss, end) :- ReadTexts(bs, next, n);
      Some((Strings(ss), end))
    else if kind == T_INT32 then
      var (ns, end) :- ReadInts(bs, next, n);
      Some((Ints(ns), end))
    else None
  }

  function ReadValue(bs: seq<byte>, pos: nat): Option<(Value, nat)> {
    var (kind, next) :- ReadUnsigned(bs, pos, 4);
    if kind == T_STRING then
      var (s, end) :- ReadText(bs, next);
      Some((Str(s), end))
    else if kind == T_UINT32 then
      var (n, end) :- ReadUnsigned(bs, next, 4);
      Some((U32(n), end))
    else if kind == T_FLOAT32 then
      var (bits, end) :- ReadUnsigned(bs, next, 4);
      Some((F32(bits), end))
    else if kind == T_ARRAY then ReadArray(bs, next)
    else None
  }

  function ReadPair(bs: seq<byte>, pos: nat): Option<(Pair, nat)> {
    var (key, afterKey) :- ReadText(bs, pos);
    var (value, end) :- ReadValue(bs, afterKey);
    Some((Pair(key, value), end))
  }

  function ReadPairs(bs: seq<byte>, pos: nat, n: nat): Option<(seq<Pair>, nat)> {
    if n == 0 then Some(([], pos))
    else
      var (before, next) :- ReadPairs(bs, pos, n - 1);
      var (pair, end) :- ReadPair(bs, next);
      Some((before + [pair], end))
  }

  function ReadDims(bs: seq<byte>, pos: nat, n: nat): Option<(seq<nat>, nat)> {
    if n == 0 then Some(([], pos))
    else
      var (before, next) :- ReadDims(bs, pos, n - 1);
      var (d, end) :- ReadSigned(bs, next, 8);
      if d < 0 then None else Some((before + [d], end))
  }

  /** A tensor info: the shape padded to four dimensions, and the place of the payload. */
  datatype Info = Info(name: Text, ne: seq<nat>, offset: nat)

  function ReadInfo(bs: seq<byte>, pos: nat): Option<(Info, nat)> {
    var (name, afterName) :- ReadText(bs, pos);
    var (nDims, afterCount) :- ReadUnsigned(bs, afterName, 4);
    var (dims, afterDims) :- ReadDims(bs, afterCount, nDims);
    var (kind, afterKind) :- ReadUnsigned(bs, afterDims, 4);
    var (offset, end) :- ReadUnsigned(bs, afterKind, 8);
    if kind != 0 || nDims > 4 then None else Some((Info(name, Padded4(dims), offset), end))
  }

  function Padded4(dims: seq<nat>): seq<nat> {
    dims + seq(if |dims| < 4 then 4 - |dims| else 0, _ => 1)
  }

  function ReadInfos(bs: seq<byte>, pos: nat, n: nat): Option<(seq<Info>, nat)> {
    if n == 0 then Some(([], pos))
    else
      var (before, next) :- ReadInfos(bs, pos, n - 1);
      var (info, end) :- ReadInfo(bs, next);
      Some((before + [info], end))
  }

  /** The key "general.alignment". */
  const ALIGNMENT_KEY: Text := [0x67, 0x65, 0x6E, 0x65, 0x72, 0x61, 0x6C, 0x2E, 0x61, 0x6C, 0x69, 0x67, 0x6E, 0x6D, 0x65, 0x6E, 0x74]

  /** The alignment the metadata declares; 32 if it does not. */
  function Alignment(ps: seq<Pair>): nat {
    if ps == [] then 32
    else if ps[0].key == ALIGNMENT_KEY && ps[0].value.U32? then ps[0].value.n
    else Alignment(ps[1..])
  }

  /** A payload at its own offset in the data section, as long as its shape says. */
  function ReadTensor(bs: seq<byte>, start: nat, info: Info): Option<Tensor> {
    if |info.ne| != 4 then None
    else
      var (data, _) :- ReadBytes(bs, start + info.offset, 4 * (info.ne[0] * info.ne[1] * info.ne[2] * info.ne[3]));
      Some(Tensor(info.name, info.ne, data))
  }

  function ReadTensors(bs: seq<byte>, start: nat, infos: seq<Info>): Option<seq<Tensor>> {
    if infos == [] then Some([])
    else
      var before :- ReadTensors(bs, start, infos[..|infos| - 1]);
      var t :- ReadTensor(bs, start, infos[|infos| - 1]);
      Some(before + [t])
  }

  function RoundUp(n: nat, a: nat): nat
    requires a > 0
  {
    (n + a - 1) / a * a
  }

  /** Magic, version and the two counts. */
  function ReadCounts(bs: seq<byte>): Option<((nat, nat), nat)> {
    var (magic, afterMagic) :- ReadBytes(bs, 0, 4);
    var (version, afterVersion) :- ReadUnsigned(bs, afterMagic, 4);
    var (nTensors, afterTensors) :- ReadSigned(bs, afterVersion, 8);
    var (nPairs, end) :- ReadSigned(bs, afterTensors, 8);
    if magic != MAGIC || version != VERSION || nTensors < 0 || nPairs < 0 then None
    else Some(((nTensors, nPairs), end))
  }

  function ReadFile(bs: seq<byte>): Option<(seq<Pair>, seq<Tensor>)> {
    var ((nTensors, nPairs), afterCounts) :- ReadCounts(bs);
    var (ps, afterPairs) :- ReadPairs(bs, afterCounts, nPairs);
    var (infos, afterInfos) :- ReadInfos(bs, afterPairs, nTensors);
    if Alignment(ps) == 0 then None
    else
      var ts :- ReadTensors(bs, RoundUp(afterInfos, Alignment(ps)), infos);
      Some((ps, ts))
  }

  // ---- Reading back what was written -------------------------------------------------------------

  lemma ReadPacked(bs: seq<byte>, pos: nat, n: nat, k: nat)
    requires n < Pow256(k) && HoldsAt(bs, pos, Pack(n, k))
    ensures ReadUnsigned(bs, pos, k) == Some((n, pos + k))
  {
    UnpackPack(n, k);
  }

  lemma ReadPackedSigned(bs: seq<byte>, pos: nat, n: int, k: nat)
    requires FitsSigned(n, k) && HoldsAt(bs, pos, PackSigned(n, k))
    ensures ReadSigned(bs, pos, k) == Some((n, pos + k))
  {
    UnpackPackSigned(n, k);
  }

  lemma ReadWrittenText(bs: seq<byte>, pos: nat, s: Text)
    requires |s| < Pow256(8) && HoldsAt(bs, pos, WString(s))
    ensures ReadText(bs, pos) == Some((s, pos + |WString(s)|))
  {
    hide Pow256;
    hide Pack;
    HoldsBoth(bs, pos, Pack(|s|, 8), s);
    ReadPacked(bs, pos, |s|, 8);
  }

  lemma {:induction false} ReadWrittenTexts(bs: seq<byte>, pos: nat, ss: seq<Text>)
    requires (forall i :: 0 <= i < |ss| ==> |ss[i]| < Pow256(8)) && HoldsAt(bs, pos, WStrings(ss))
    ensures ReadTexts(bs, pos, |ss|) == Some((ss, pos + |WStrings(ss)|))
  {
    hide Pow256;
    hide WString;
    hide ReadText;
    if ss != [] {
      var init, last := ss[..|ss| - 1], ss[|ss| - 1];
      assert init + [last] == ss;
      HoldsBoth(bs, pos, WStrings(init), WString(last));
      ReadWrittenTexts(bs, pos, init);
      ReadWrittenText(bs, pos + |WStrings(init)|, last);
    }
  }

  lemma {:induction false} ReadWrittenInts(bs: seq<byte>, pos: nat, ns: seq<int>)
    requires (forall i :: 0 <= i < |ns| ==> FitsSigned(ns[i], 4)) && HoldsAt(bs, pos, WInts(ns))
    ensures ReadInts(bs, pos, |ns|) == Some((ns, pos + |WInts(ns)|))
  {
    hide FitsSigned;
    hide PackSigned;
    hide ReadSigned;
    if ns != [] {
      var init, last := ns[..|ns| - 1], ns[|ns| - 1];
      assert init + [last] == ns;
      HoldsBoth(bs, pos, WInts(init), PackSigned(last, 4));
      ReadWrittenInts(bs, pos, init);
      ReadPackedSigned(bs, pos + |WInts(init)|, last, 4);
    }
  }

  lemma {:induction false} ReadWrittenDims(bs: seq<byte>, pos: nat, ne: seq<nat>)
    requires DimsFit(ne) && HoldsAt(bs, pos, WDims(ne))
    ensures ReadDims(bs, pos, |ne|) == Some((ne, pos + |WDims(ne)|))
  {
    hide FitsSigned;
    hide PackSigned;
    hide ReadSigned;
    if ne != [] {
      var init, last := ne[..|ne| - 1], ne[|ne| - 1];
      assert init + [last] == ne;
      HoldsBoth(bs, pos, WDims(init), PackSigned(last, 8));
      ReadWrittenDims(bs, pos, init);
      ReadPackedSigned(bs, pos + |WDims(init)|, last, 8);
    }
  }

  lemma ReadWrittenArray(bs: seq<byte>, pos: nat, v: Value)
    requires ValueFits(v) && (v.Strings? || v.Ints?)
    requires HoldsAt(bs, pos, WValue(v))
    ensures ReadValue(bs, pos) == Some((v, pos + |WValue(v)|))
  {
    hide Pack;
    hide Unpack;
    hide ReadUnsigned;
    hide ReadTexts;
    hide ReadInts;
    hide WStrings;
    hide WInts;
    hide FitsSigned;
    hide HoldsAt;
    KindsFit();
    var n := if v.Strings? then |v.ss| else |v.ns|;
    var kind := if v.Strings? then T_STRING else T_INT32;
    var items := if v.Strings? then WStrings(v.ss) else WInts(v.ns);
    HoldsBoth(bs, pos, Pack(T_ARRAY, 4), Pack(kind, 4) + (Pack(n, 8) + items));
    HoldsBoth(bs, pos + 4, Pack(kind, 4), Pack(n, 8) + items);
    HoldsBoth(bs, pos + 8, Pack(n, 8), items);
    ReadPacked(bs, pos, T_ARRAY, 4);
    ReadPacked(bs, pos + 4, kind, 4);
    ReadPacked(bs, pos + 8, n, 8);
    if v.Strings? {
      ReadWrittenTexts(bs, pos + 16, v.ss);
    } else {
      ReadWrittenInts(bs, pos + 16, v.ns);
    }
  }

  lemma KindsFit()
    ensures T_ARRAY < Pow256(4) && T_STRING < Pow256(4) && T_INT32 < Pow256(4) && T_UINT32 < Pow256(4) && T_FLOAT32 < Pow256(4)
    ensures VERSION < Pow256(4) && Pow256(4) == 0x1_0000_0000
  {
    assert Pow256(4) == 256 * Pow256(3) && Pow256(3) == 256 * Pow256(2) && Pow256(2) == 256 * Pow256(1) && Pow256(1) == 256 * Pow256(0);
  }

  lemma ReadWrittenValue(bs: seq<byte>, pos: nat, v: Value)
    requires ValueFits(v) && HoldsAt(bs, pos, WValue(v))
    ensures ReadValue(bs, pos) == Some((v, pos + |WValue(v)|))
  {
    hide Pack;
    hide Unpack;
    hide ReadUnsigned;
    hide ReadText;
    hide WString;
    hide HoldsAt;
    KindsFit();
    match v {
      case Str(s) =>
        HoldsBoth(bs, pos, Pack(T_STRING, 4), WString(s));
        ReadPacked(bs, pos, T_STRING, 4);
        ReadWrittenText(bs, pos + 4, s);
      case U32(n) =>
        HoldsBoth(bs, pos, Pack(T_UINT32, 4), Pack(n, 4));
        ReadPacked(bs, pos, T_UINT32, 4);
        ReadPacked(bs, pos + 4, n, 4);
      case F32(bits) =>
        HoldsBoth(bs, pos, Pack(T_FLOAT32, 4), Pack(bits, 4));
        ReadPacked(bs, pos, T_FLOAT32, 4);
        ReadPacked(bs, pos + 4, bits, 4);
      case _ =>
        ReadWrittenArray(bs, pos, v);
    }
  }

  lemma {:induction false} ReadWrittenPairs(bs: seq<byte>, pos: nat, ps: seq<Pair>)
    requires PairsFit(ps) && HoldsAt(bs, pos, WPairs(ps))
    ensures ReadPairs(bs, pos, |ps|) == Some((ps, pos + |WPairs(ps)|))
  {
    hide *;
    if ps == [] {
      NoPairs(bs, pos);
    } else {
      var init, last := ps[..|ps| - 1], ps[|ps| - 1];
      assert init + [last] == ps;
      LastPair(init, last);
      PairRead(bs, pos, init, last);
      HoldsBoth(bs, pos, WPairs(init), WPair(last));
      ReadWrittenPairs(bs, pos, init);
      ReadWrittenPair(bs, pos + |WPairs(init)|, last);
    }
  }

  lemma NoPairs(bs: seq<byte>, pos: nat)
    ensures PairsFit([]) && WPairs([]) == [] && ReadPairs(bs, pos, 0) == Some(([], pos))
  {
  }

  lemma LastPair(init: seq<Pair>, last: Pair)
    requires PairsFit(init + [last])
    ensures PairsFit(init) && PairFits(last) && WPairs(init + [last]) == WPairs(init) + WPair(last)
  {
    hide PairFits;
    hide WPair;
    var ps := init + [last];
    assert ps[|ps| - 1] == last && ps[..|ps| - 1] == init;
    assert forall i :: 0 <= i < |init| ==> init[i] == ps[i];
  }

  lemma PairRead(bs: seq<byte>, pos: nat, init: seq<Pair>, last: Pair)
    requires PairsFit(init) && PairFits(last)
    ensures var middle := pos + |WPairs(init)|;
      ReadPairs(bs, pos, |init|) == Some((init, middle)) && ReadPair(bs, middle) == Some((last, middle + |WPair(last)|)) ==>
        ReadPairs(bs, pos, |init + [last]|) == Some((init + [last], middle + |WPair(last)|))
  {
    hide ReadText;
    hide ReadValue;
    hide WPairs;
    hide WPair;
  }

  lemma ReadWrittenPair(bs: seq<byte>, pos: nat, p: Pair)
    requires PairFits(p) && HoldsAt(bs, pos, WPair(p))
    ensures ReadPair(bs, pos) == Some((p, pos + |WPair(p)|))
  {
    hide ReadText;
    hide ReadValue;
    hide WString;
    hide WValue;
    hide HoldsAt;
    hide ValueFits;
    hide Pow256;
    HoldsBoth(bs, pos, WString(p.key), WValue(p.value));
    ReadWrittenText(bs, pos, p.key);
    ReadWrittenValue(bs, pos + |WString(p.key)|, p.value);
  }

  lemma PadsBack(ne: seq<nat>)
    requires |ne| == 4
    ensures Padded4(ne[..Dims(ne)]) == ne
  {
  }

  lemma InfoHolds(bs: seq<byte>, pos: nat, name: seq<byte>, count: seq<byte>, dims: seq<byte>, kind: seq<byte>, place: seq<byte>)
    requires HoldsAt(bs, pos, name + (count + (dims + (kind + place))))
    ensures HoldsAt(bs, pos, name) && HoldsAt(bs, pos + |name|, count) && HoldsAt(bs, pos + |name| + |count|, dims)
    ensures HoldsAt(bs, pos + |name| + |count| + |dims|, kind)
    ensures HoldsAt(bs, pos + |name| + |count| + |dims| + |kind|, place)
  {
    hide HoldsAt;
    HoldsBoth(bs, pos, name, count + (dims + (kind + place)));
    HoldsBoth(bs, pos + |name|, count, dims + (kind + place));
    HoldsBoth(bs, pos + |name| + |count|, dims, kind + place);
    HoldsBoth(bs, pos + |name| + |count| + |dims|, kind, place);
  }

  lemma ReadInfoParts(bs: seq<byte>, pos: nat, name: Text, dims: seq<nat>, offset: nat)
    requires |name| < Pow256(8) && |dims| <= 4 && DimsFit(dims) && offset < Pow256(8)
    requires HoldsAt(bs, pos, WString(name) + (Pack(|dims|, 4) + (WDims(dims) + (Pack(0, 4) + Pack(offset, 8)))))
    ensures ReadInfo(bs, pos) == Some((Info(name, Padded4(dims), offset), pos + |WString(name)| + 4 + |WDims(dims)| + 12))
  {
    KindsFit();
    hide Pow256;
    hide Pack;
    hide ReadUnsigned;
    hide ReadText;
    hide ReadDims;
    hide WString;
    hide WDims;
    hide Padded4;
    hide HoldsAt;
    hide DimsFit;
    InfoHolds(bs, pos, WString(name), Pack(|dims|, 4), WDims(dims), Pack(0, 4), Pack(offset, 8));
    var p1 := pos + |WString(name)|;
    var p2 := p1 + 4 + |WDims(dims)|;
    ReadWrittenText(bs, pos, name);
    ReadPacked(bs, p1, |dims|, 4);
    ReadWrittenDims(bs, p1 + 4, dims);
    ReadPacked(bs, p2, 0, 4);
    ReadPacked(bs, p2 + 4, offset, 8);
  }

  lemma InfoLength(name: Text, dims: seq<nat>, offset: nat)
    requires DimsFit(dims)
    ensures |WString(name) + (Pack(|dims|, 4) + (WDims(dims) + (Pack(0, 4) + Pack(offset, 8))))|
         == |WString(name)| + 4 + |WDims(dims)| + 12
  {
    hide Pow256;
    hide WString;
    hide WDims;
    hide Pack;
    hide DimsFit;
  }

  lemma ReadWrittenInfo(bs: seq<byte>, pos: nat, t: Tensor, offset: nat)
    requires TensorFits(t) && offset < Pow256(8) && HoldsAt(bs, pos, WInfo(t, offset))
    ensures ReadInfo(bs, pos) == Some((Info(t.name, t.ne, offset), pos + |WInfo(t, offset)|))
  {
    hide *;
    InfoParts(t, offset);
    PadsBack(t.ne);
    var dims := t.ne[..Dims(t.ne)];
    InfoLength(t.name, dims, offset);
    ReadInfoParts(bs, pos, t.name, dims, offset);
  }

  /** The infos as the reader gives them. */
  function Infos(ts: seq<Tensor>, k: nat): (infos: seq<Info>)
    requires k <= |ts|
    ensures |infos| == k
  {
    if k == 0 then [] else Infos(ts, k - 1) + [Info(ts[k - 1].name, ts[k - 1].ne, Offset(ts, k - 1))]
  }

  lemma {:induction false} OffsetsGrow(ts: seq<Tensor>, j: nat, k: nat)
    requires j <= k <= |ts|
    ensures Offset(ts, j) <= Offset(ts, k)
  {
    if j < k {
      OffsetsGrow(ts, j, k - 1);
    }
  }

  lemma {:induction false} ReadWrittenInfos(bs: seq<byte>, pos: nat, ts: seq<Tensor>, k: nat)
    requires k <= |ts| && TensorsFit(ts) && Offset(ts, |ts|) < Pow256(8)
    requires HoldsAt(bs, pos, WInfos(ts, k))
    ensures ReadInfos(bs, pos, k) == Some((Infos(ts, k), pos + |WInfos(ts, k)|))
  {
    hide Pow256;
    hide Offset;
    hide TensorFits;
    hide WInfo;
    hide ReadInfo;
    hide HoldsAt;
    if k > 0 {
      OffsetsGrow(ts, k - 1, |ts|);
      HoldsBoth(bs, pos, WInfos(ts, k - 1), WInfo(ts[k - 1], Offset(ts, k - 1)));
      ReadWrittenInfos(bs, pos, ts, k - 1);
      ReadWrittenInfo(bs, pos + |WInfos(ts, k - 1)|, ts[k - 1], Offset(ts, k - 1));
    }
  }

  // ---- The data section ---------------------------------------------------------------------------

  /**
    Offsets are multiples of 32, and the padded payloads tile the data section in order: each
    begins where the one before it ends, and the last ends with the file.
   */
  lemma {:induction false} PayloadsTile(ts: seq<Tensor>, k: nat)
    requires k <= |ts|
    ensures Offset(ts, k) % ALIGN == 0 && |WBody(ts, k)| == Offset(ts, k)
    ensures k > 0 ==> Offset(ts, k - 1) + |ts[k - 1].data| <= Offset(ts, k) < Offset(ts, k - 1) + |ts[k - 1].data| + ALIGN
  {
    if k > 0 {
      PayloadsTile(ts, k - 1);
    }
  }

  lemma {:induction false} PayloadAt(bs: seq<byte>, start: nat, ts: seq<Tensor>, k: nat, i: nat)
    requires i < k <= |ts| && HoldsAt(bs, start, WBody(ts, k))
    ensures HoldsAt(bs, start + Offset(ts, i), ts[i].data)
  {
    hide Pad;
    hide HoldsAt;
    PayloadsTile(ts, k - 1);
    HoldsBoth(bs, start, WBody(ts, k - 1), WPadded(ts[k - 1].data));
    if i < k - 1 {
      PayloadAt(bs, start, ts, k - 1, i);
    } else {
      HoldsBoth(bs, start + Offset(ts, i), ts[i].data, Zeros(Pad(|ts[i].data|) - |ts[i].data|));
    }
  }

  lemma ReadWrittenTensor(bs: seq<byte>, start: nat, t: Tensor, offset: nat)
    requires TensorFits(t) && HoldsAt(bs, start + offset, t.data)
    ensures ReadTensor(bs, start, Info(t.name, t.ne, offset)) == Some(t)
  {
  }

  lemma {:induction false} ReadWrittenTensors(bs: seq<byte>, start: nat, ts: seq<Tensor>, k: nat)
    requires k <= |ts| && TensorsFit(ts) && HoldsAt(bs, start, WBody(ts, |ts|))
    ensures ReadTensors(bs, start, Infos(ts, k)) == Some(ts[..k])
  {
    hide TensorFits;
    hide HoldsAt;
    hide WBody;
    hide Offset;
    hide ReadTensor;
    if k > 0 {
      var infos := Infos(ts, k);
      assert infos[..k - 1] == Infos(ts, k - 1);
      ReadWrittenTensors(bs, start, ts, k - 1);
      PayloadAt(bs, start, ts, |ts|, k - 1);
      ReadWrittenTensor(bs, start, ts[k - 1], Offset(ts, k - 1));
      assert ts[..k] == ts[..k - 1] + [ts[k - 1]];
    }
  }

  // ---- The round trip --------------------------------------------------------------------------------

  lemma CountsHold(bs: seq<byte>, ps: seq<Pair>, ts: seq<Tensor>)
    requires Fits(ps, ts) && HoldsAt(bs, 0, WHeader(ps, ts))
    ensures FitsSigned(|ps|, 8) && FitsSigned(|ts|, 8)
    ensures HoldsAt(bs, 0, MAGIC) && HoldsAt(bs, 4, Pack(VERSION, 4)) && HoldsAt(bs, 8, PackSigned(|ts|, 8))
    ensures HoldsAt(bs, 16, PackSigned(|ps|, 8)) && HoldsAt(bs, 24, WPairs(ps) + WInfos(ts, |ts|))
  {
    var rest := WPairs(ps) + WInfos(ts, |ts|);
    var version, nTensors, nPairs := Pack(VERSION, 4), PackSigned(|ts|, 8), PackSigned(|ps|, 8);
    assert HoldsAt(bs, 0, MAGIC + (version + (nTensors + (nPairs + rest))));
    hide *;
    HoldsBoth(bs, 0, MAGIC, version + (nTensors + (nPairs + rest)));
    HoldsBoth(bs, 4, version, nTensors + (nPairs + rest));
    HoldsBoth(bs, 8, nTensors, nPairs + rest);
    HoldsBoth(bs, 16, nPairs, rest);
  }

  lemma ReadWrittenCounts(bs: seq<byte>, nTensors: nat, nPairs: nat)
    requires FitsSigned(nPairs, 8) && FitsSigned(nTensors, 8)
    requires HoldsAt(bs, 0, MAGIC) && HoldsAt(bs, 4, Pack(VERSION, 4)) && HoldsAt(bs, 8, PackSigned(nTensors, 8))
    requires HoldsAt(bs, 16, PackSigned(nPairs, 8))
    ensures ReadCounts(bs) == Some(((nTensors, nPairs), 24))
  {
    hide FitsSigned;
    hide Pack;
    hide PackSigned;
    hide Pow256;
    hide ReadUnsigned;
    hide ReadSigned;
    KindsFit();
    ReadPacked(bs, 4, VERSION, 4);
    ReadPackedSigned(bs, 8, nTensors, 8);
    ReadPackedSigned(bs, 16, nPairs, 8);
  }

  /**
    Whatever fits its fields is read back: every pair, and every tensor with its name, its
    four dimensions and its payload.
   */
  lemma ReadWrittenFile(ps: seq<Pair>, ts: seq<Tensor>)
    requires Fits(ps, ts) && Alignment(ps) == ALIGN
    ensures ReadFile(File(ps, ts)) == Some((ps, ts))
  {
    FileParts(ps, ts);
    HeaderLength(ps, ts);
    CountsHold(File(ps, ts), ps, ts);
    ReadWrittenCounts(File(ps, ts), |ts|, |ps|);
    ReadParts(File(ps, ts), ps, ts, |WHeader(ps, ts)|);
  }

  lemma PadRoundsUp(n: nat)
    ensures RoundUp(n, ALIGN) == Pad(n)
  {
  }

  lemma ReadParts(bs: seq<byte>, ps: seq<Pair>, ts: seq<Tensor>, end: nat)
    requires PairsFit(ps) && TensorsFit(ts) && Offset(ts, |ts|) < Pow256(8)
    requires Alignment(ps) == ALIGN && ReadCounts(bs) == Some(((|ts|, |ps|), 24))
    requires HoldsAt(bs, 24, WPairs(ps) + WInfos(ts, |ts|)) && end == 24 + |WPairs(ps)| + |WInfos(ts, |ts|)|
    requires HoldsAt(bs, Pad(end), WBody(ts, |ts|))
    ensures ReadFile(bs) == Some((ps, ts))
  {
    PadRoundsUp(end);
    hide *;
    HoldsBoth(bs, 24, WPairs(ps), WInfos(ts, |ts|));
    ReadWrittenPairs(bs, 24, ps);
    ReadWrittenInfos(bs, 24 + |WPairs(ps)|, ts, |ts|);
    ReadWrittenTensors(bs, Pad(end), ts, |ts|);
    assert ts[..|ts|] == ts;
    FileRead(bs, ps, Infos(ts, |ts|), ts, 24 + |WPairs(ps)|, end);
  }

  lemma FileRead(bs: seq<byte>, ps: seq<Pair>, infos: seq<Info>, ts: seq<Tensor>, middle: nat, end: nat)
    requires Alignment(ps) == ALIGN && ReadCounts(bs) == Some(((|ts|, |ps|), 24))
    requires ReadPairs(bs, 24, |ps|) == Some((ps, middle)) && ReadInfos(bs, middle, |ts|) == Some((infos, end))
    requires ReadTensors(bs, RoundUp(end, ALIGN), infos) == Some(ts)
    ensures ReadFile(bs) == Some((ps, ts))
  {
    hide ReadCounts;
    hide ReadPairs;
    hide ReadInfos;
    hide ReadTensors;
    hide RoundUp;
    hide Alignment;
  }

  lemma HeaderLength(ps: seq<Pair>, ts: seq<Tensor>)
    requires Fits(ps, ts)
    ensures |WHeader(ps, ts)| == 24 + |WPairs(ps)| + |WInfos(ts, |ts|)|
  {
    hide Pack;
    hide PackSigned;
    hide WPairs;
    hide WInfos;
    hide PairsFit;
    hide TensorsFit;
  }

  lemma FileParts(ps: seq<Pair>, ts: seq<Tensor>)
    requires Fits(ps, ts)
    ensures var bs, header := File(ps, ts), WHeader(ps, ts);
      HoldsAt(bs, 0, header) && HoldsAt(bs, Pad(|header|), WBody(ts, |ts|))
  {
    hide Fits;
    hide WHeader;
    hide WBody;
    hide Pad;
    var bs, header, body := File(ps, ts), WHeader(ps, ts), WBody(ts, |ts|);
    assert bs[0..|bs|] == WPadded(header) + body;
    HoldsBoth(bs, 0, WPadded(header), body);
    HoldsBoth(bs, 0, header, Zeros(Pad(|header|) - |header|));
  }
}
