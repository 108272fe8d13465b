/**
  The writer of `scripts/gen_toy_gguf.py` and a reader of the same format, after the "File
  Structure" section of the GGUF specification.
 */
module Gguf {
  import opened Common
  import opened Bytes

  const ALIGN := 32
  const MAGIC: seq<byte> := [0x47, 0x47, 0x55, 0x46]
  const VERSION := 3

  const T_UINT32 := 4
  const T_INT32 := 5
  const T_FLOAT32 := 6
  const T_STRING := 8
  const T_ARRAY := 9

  // ---- What is written ---------------------------------------------------------------------------

  /** UTF-8 text, as its bytes. */
  type Text = seq<byte>

  /** A metadata value; a float is its 32-bit pattern. */
  datatype Value = Str(s: Text) | U32(n: nat) | F32(bits: nat) | Strings(ss: seq<Text>) | Ints(ns: seq<int>)

  datatype Pair = Pair(key: Text, value: Value)

  /** A tensor: its name, its four dimensions and its f32 payload. */
  datatype Tensor = Tensor(name: Text, ne: seq<nat>, data: seq<byte>)

  /** The least multiple of the alignment not below `n`. */
  function Pad(n: nat): (p: nat)
    ensures p % ALIGN == 0 && n <= p < n + ALIGN
  {
    (n + ALIGN - 1) / ALIGN * ALIGN
  }

  function WString(s: Text): seq<byte> {
    Pack(|s|, 8) + s
  }

  function WStrings(ss: seq<Text>): seq<byte> {
    if ss == [] then [] else WStrings(ss[..|ss| - 1]) + WString(ss[|ss| - 1])
  }

  function WInts(ns: seq<int>): seq<byte>
    requires forall i :: 0 <= i < |ns| ==> FitsSigned(ns[i], 4)
  {
    if ns == [] then [] else WInts(ns[..|ns| - 1]) + PackSigned(ns[|ns| - 1], 4)
  }

  /** What `struct.pack` accepts: every number fits its field. */
  predicate ValueFits(v: Value) {
    match v
    case Str(s) => |s| < Pow256(8)
    case U32(n) => n < Pow256(4)
    case F32(bits) => bits < Pow256(4)
    case Strings(ss) => |ss| < Pow256(8) && forall i :: 0 <= i < |ss| ==> |ss[i]| < Pow256(8)
    case Ints(ns) => |ns| < Pow256(8) && forall i :: 0 <= i < |ns| ==> FitsSigned(ns[i], 4)
  }

  predicate PairFits(p: Pair) {
    |p.key| < Pow256(8) && ValueFits(p.value)
  }

  function WValue(v: Value): seq<byte>
    requires ValueFits(v)
  {
    match v
    case Str(s) => Pack(T_STRING, 4) + WString(s)
    case U32(n) => Pack(T_UINT32, 4) + Pack(n, 4)
    case F32(bits) => Pack(T_FLOAT32, 4) + Pack(bits, 4)
    case Strings(ss) => Pack(T_ARRAY, 4) + (Pack(T_STRING, 4) + (Pack(|ss|, 8) + WStrings(ss)))
    case Ints(ns) => Pack(T_ARRAY, 4) + (Pack(T_INT32, 4) + (Pack(|ns|, 8) + WInts(ns)))
  }

  function WPair(p: Pair): seq<byte>
    requires PairFits(p)
  {
    WString(p.key) + WValue(p.value)
  }

  predicate PairsFit(ps: seq<Pair>) {
    forall i :: 0 <= i < |ps| ==> PairFits(ps[i])
  }

  function WPairs(ps: seq<Pair>): seq<byte>
    requires PairsFit(ps)
  {
    if ps == [] then [] else WPairs(ps[..|ps| - 1]) + WPair(ps[|ps| - 1])
  }

  /** The dimensions that are written: trailing ones are dropped, the first never is. */
  function Dims(ne: seq<nat>): (n: nat)
    requires |ne| == 4
    ensures 1 <= n <= 4
    ensures forall j :: n <= j < 4 ==> ne[j] == 1
    ensures n > 1 ==> ne[n - 1] != 1
  {
    if ne[3] != 1 then 4 else if ne[2] != 1 then 3 else if ne[1] != 1 then 2 else 1
  }

  predicate DimsFit(ne: seq<nat>) {
    forall j :: 0 <= j < |ne| ==> FitsSigned(ne[j], 8)
  }

  predicate TensorFits(t: Tensor) {
    && |t.name| < Pow256(8) && |t.ne| == 4 && DimsFit(t.ne)
    && |t.data| == 4 * (t.ne[0] * t.ne[1] * t.ne[2] * t.ne[3])
  }

  predicate TensorsFit(ts: seq<Tensor>) {
    forall i :: 0 <= i < |ts| ==> TensorFits(ts[i])
  }

  function WDims(ne: seq<nat>): seq<byte>
    requires DimsFit(ne)
  {
    if ne == [] then [] else WDims(ne[..|ne| - 1]) + PackSigned(ne[|ne| - 1], 8)
  }

  function WInfo(t: Tensor, offset: nat): seq<byte>
    requires TensorFits(t)
  {
    WString(t.name) + (Pack(Dims(t.ne), 4) + (WDims(t.ne[..Dims(t.ne)]) + (Pack(0, 4) + Pack(offset, 8))))
  }

  /** Where the payload of tensor `k` begins in the data section: behind the padded payloads before it. */
  function Offset(ts: seq<Tensor>, k: nat): nat
    requires k <= |ts|
  {
    if k == 0 then 0 else Offset(ts, k - 1) + Pad(|ts[k - 1].data|)
  }

  function WInfos(ts: seq<Tensor>, k: nat): seq<byte>
    requires k <= |ts| && TensorsFit(ts)
  {
    if k == 0 then [] else WInfos(ts, k - 1) + WInfo(ts[k - 1], Offset(ts, k - 1))
  }

  function WPadded(bs: seq<byte>): seq<byte> {
    bs + Zeros(Pad(|bs|) - |bs|)
  }

  function WBody(ts: seq<Tensor>, k: nat): seq<byte>
    requires k <= |ts|
  {
    if k == 0 then [] else WBody(ts, k - 1) + WPadded(ts[k - 1].data)
  }

  ghost predicate Fits(ps: seq<Pair>, ts: seq<Tensor>) {
    && FitsSigned(|ps|, 8) && FitsSigned(|ts|, 8)
    && PairsFit(ps) && TensorsFit(ts)
    && Offset(ts, |ts|) < Pow256(8)
  }

  function WHeader(ps: seq<Pair>, ts: seq<Tensor>): seq<byte>
    requires Fits(ps, ts)
  {
    MAGIC + (Pack(VERSION, 4) + (PackSigned(|ts|, 8) + (PackSigned(|ps|, 8) + (WPairs(ps) + WInfos(ts, |ts|)))))
  }

  /** The file as a whole. */
  function File(ps: seq<Pair>, ts: seq<Tensor>): seq<byte>
    requires Fits(ps, ts)
  {
    WPadded(WHeader(ps, ts)) + WBody(ts, |ts|)
  }

  // ---- The program: loops over the lists ----------------------------------------------------------

  method KvArrStr(key: Text, values: seq<Text>) returns (out: seq<byte>)
    requires PairFits(Pair(key, Strings(values)))
    ensures out == WPair(Pair(key, Strings(values)))
  {
    ArrayOfStrings(key, values);
    hide *;
    out := WString(key) + Pack(T_ARRAY, 4);
    out := out + (Pack(T_STRING, 4) + Pack(|values|, 8));
    out := AppendStrings(out, values);
    FiveParts(WString(key), Pack(T_ARRAY, 4), Pack(T_STRING, 4), Pack(|values|, 8), WStrings(values));
  }

  /** One pair: arrays are written item by item. */
  method WritePair(p: Pair) returns (out: seq<byte>)
    requires PairFits(p)
    ensures out == WPair(p)
  {
    hide WPair;
    match p.value
    case Strings(ss) => out := KvArrStr(p.key, ss);
    case Ints(ns) => out := KvArrI32(p.key, ns);
    case _ => out := WPair(p);
  }

  method AppendStrings(head: seq<byte>, values: seq<Text>) returns (out: seq<byte>)
    ensures out == head + WStrings(values)
  {
    hide WString;
    out := head;
    for i := 0 to |values|
      invariant out == head + WStrings(values[..i])
    {
      assert values[..i + 1][..i] == values[..i];
      Assoc(head, WStrings(values[..i]), WString(values[i]));
      out := out + WString(values[i]);
    }
    assert values[..|values|] == values;
  }

  lemma ArrayOfStrings(key: Text, values: seq<Text>)
    requires PairFits(Pair(key, Strings(values)))
    ensures WPair(Pair(key, Strings(values)))
         == WString(key) + (Pack(T_ARRAY, 4) + (Pack(T_STRING, 4) + (Pack(|values|, 8) + WStrings(values))))
  {
    hide Pack;
    hide WString;
    hide WStrings;
  }

  lemma ArrayOfInts(key: Text, values: seq<int>)
    requires PairFits(Pair(key, Ints(values)))
    ensures forall i :: 0 <= i < |values| ==> FitsSigned(values[i], 4)
    ensures WPair(Pair(key, Ints(values)))
         == WString(key) + (Pack(T_ARRAY, 4) + (Pack(T_INT32, 4) + (Pack(|values|, 8) + WInts(values))))
  {
    hide Pack;
    hide WString;
    hide WInts;
    hide FitsSigned;
  }

  lemma FiveParts(a: seq<byte>, b: seq<byte>, c: seq<byte>, d: seq<byte>, e: seq<byte>)
    ensures a + b + (c + d) + e == a + (b + (c + (d + e)))
  {
  }

  method KvArrI32(key: Text, values: seq<int>) returns (out: seq<byte>)
    requires PairFits(Pair(key, Ints(values)))
    ensures out == WPair(Pair(key, Ints(values)))
  {
    ArrayOfInts(key, values);
    hide *;
    out := WString(key) + Pack(T_ARRAY, 4);
    out := out + (Pack(T_INT32, 4) + Pack(|values|, 8));
    out := AppendInts(out, values);
    FiveParts(WString(key), Pack(T_ARRAY, 4), Pack(T_INT32, 4), Pack(|values|, 8), WInts(values));
  }

  method AppendInts(head: seq<byte>, values: seq<int>) returns (out: seq<byte>)
    requires forall i :: 0 <= i < |values| ==> FitsSigned(values[i], 4)
    ensures out == head + WInts(values)
  {
    hide PackSigned;
    hide FitsSigned;
    out := head;
    for i := 0 to |values|
      invariant out == head + WInts(values[..i])
    {
      assert values[..i + 1][..i] == values[..i];
      Assoc(head, WInts(values[..i]), PackSigned(values[i], 4));
      out := out + PackSigned(values[i], 4);
    }
    assert values[..|values|] == values;
  }

  /** The assembly: counts and pairs, then offsets, infos, padding and payloads. */
  method Build(ps: seq<Pair>, ts: seq<Tensor>) returns (file: seq<byte>)
    requires Fits(ps, ts)
    ensures file == File(ps, ts)
  {
    hide Pack;
    hide PackSigned;
    hide FitsSigned;
    hide WPair;
    hide PairFits;
    hide WInfo;
    hide TensorFits;
    hide Pad;
    var kv: seq<byte> := [];
    for i := 0 to |ps|
      invariant kv == WPairs(ps[..i])
    {
      assert ps[..i + 1][..i] == ps[..i];
      var pair := WritePair(ps[i]);
      kv := kv + pair;
    }
    assert ps[..|ps|] == ps;
    var header := MAGIC + Pack(VERSION, 4);
    header := header + (PackSigned(|ts|, 8) + PackSigned(|ps|, 8));
    header := header + kv;
    var infos := WriteInfos(ts);
    FiveParts(MAGIC, Pack(VERSION, 4), PackSigned(|ts|, 8), PackSigned(|ps|, 8), kv);
    HeaderParts(ps, ts, header, infos);
    header := header + infos;
    header := header + Zeros(Pad(|header|) - |header|);

    var body: seq<byte> := [];
    for i := 0 to |ts|
      invariant body == WBody(ts, i)
    {
      body := body + (ts[i].data + Zeros(Pad(|ts[i].data|) - |ts[i].data|));
    }
    file := header + body;
  }

  lemma HeaderParts(ps: seq<Pair>, ts: seq<Tensor>, head: seq<byte>, infos: seq<byte>)
    requires Fits(ps, ts) && infos == WInfos(ts, |ts|)
    requires head == MAGIC + (Pack(VERSION, 4) + (PackSigned(|ts|, 8) + (PackSigned(|ps|, 8) + WPairs(ps))))
    ensures head + infos == WHeader(ps, ts)
  {
    var a, b, c, d, e := MAGIC, Pack(VERSION, 4), PackSigned(|ts|, 8), PackSigned(|ps|, 8), WPairs(ps);
    hide *;
    Assoc(a, b + (c + (d + e)), infos);
    Assoc(b, c + (d + e), infos);
    Assoc(c, d + e, infos);
    Assoc(d, e, infos);
  }

  /** The offsets, summed up. */
  method Offsets(ts: seq<Tensor>) returns (offsets: seq<nat>)
    ensures |offsets| == |ts| && forall k :: 0 <= k < |ts| ==> offsets[k] == Offset(ts, k)
  {
    hide Pad;
    offsets := [];
    var cursor := 0;
    for i := 0 to |ts|
      invariant |offsets| == i && cursor == Offset(ts, i) && forall k :: 0 <= k < i ==> offsets[k] == Offset(ts, k)
    {
      offsets := offsets + [cursor];
      cursor := cursor + Pad(|ts[i].data|);
    }
  }

  /** The offsets first, then each info with its own. */
  method WriteInfos(ts: seq<Tensor>) returns (infos: seq<byte>)
    requires TensorsFit(ts)
    ensures infos == WInfos(ts, |ts|)
  {
    hide TensorFits;
    hide WInfo;
    hide Offset;
    var offsets := Offsets(ts);
    infos := [];
    for i := 0 to |ts|
      invariant infos == WInfos(ts, i)
    {
      var info := WriteInfo(ts[i], offsets[i]);
      infos := infos + info;
    }
  }

  method CountDims(ne: seq<nat>) returns (nDims: nat)
    requires |ne| == 4
    ensures nDims == Dims(ne)
  {
    nDims := 1;
    for j := 1 to 4
      invariant 1 <= nDims <= j
      invariant forall k :: nDims <= k < j ==> ne[k] == 1
      invariant nDims > 1 ==> ne[nDims - 1] != 1
    {
      if ne[j] != 1 {
        nDims := j + 1;
      }
    }
  }

  method WriteInfo(t: Tensor, offset: nat) returns (info: seq<byte>)
    requires TensorFits(t)
    ensures info == WInfo(t, offset)
  {
    InfoParts(t, offset);
    hide *;
    var nDims := CountDims(t.ne);
    info := WString(t.name) + Pack(nDims, 4);
    info := AppendDims(info, t.ne[..nDims]);
    info := info + Pack(0, 4);
    info := info + Pack(offset, 8);
    InfoInOrder(WString(t.name), Pack(nDims, 4), WDims(t.ne[..nDims]), Pack(0, 4), Pack(offset, 8));
  }

  method AppendDims(head: seq<byte>, ne: seq<nat>) returns (out: seq<byte>)
    requires DimsFit(ne)
    ensures out == head + WDims(ne)
  {
    hide PackSigned;
    hide FitsSigned;
    out := head;
    for j := 0 to |ne|
      invariant out == head + WDims(ne[..j])
    {
      assert ne[..j + 1][..j] == ne[..j];
      Assoc(head, WDims(ne[..j]), PackSigned(ne[j], 8));
      out := out + PackSigned(ne[j], 8);
    }
    assert ne[..|ne|] == ne;
  }

  lemma InfoParts(t: Tensor, offset: nat)
    requires TensorFits(t)
    ensures |t.name| < Pow256(8) && |t.ne| == 4 && DimsFit(t.ne[..Dims(t.ne)])
    ensures WInfo(t, offset) == WString(t.name) + (Pack(Dims(t.ne), 4) + (WDims(t.ne[..Dims(t.ne)]) + (Pack(0, 4) + Pack(offset, 8))))
  {
    hide Pack;
    hide WString;
    hide WDims;
    hide Dims;
    hide FitsSigned;
  }

  lemma InfoInOrder(a: seq<byte>, b: seq<byte>, c: seq<byte>, d: seq<byte>, e: seq<byte>)
    ensures a + b + c + d + e == a + (b + (c + (d + e)))
  {
  }

  // ---- The format, byte by byte -------------------------------------------------------------------------------

  /** A key, the number of its type, and the value: 8 for text, 4 for an integer, 6 for a float, 9 for an array. */
  lemma PairLayout(p: Pair)
    requires PairFits(p)
    ensures WPair(p) == Pack(|p.key|, 8) + p.key + match p.value
      case Str(s) => [8, 0, 0, 0] + Pack(|s|, 8) + s
      case U32(n) => [4, 0, 0, 0] + Pack(n, 4)
      case F32(bits) => [6, 0, 0, 0] + Pack(bits, 4)
      case Strings(ss) => [9, 0, 0, 0] + [8, 0, 0, 0] + Pack(|ss|, 8) + WStrings(ss)
      case Ints(ns) => [9, 0, 0, 0] + [5, 0, 0, 0] + Pack(|ns|, 8) + WInts(ns)
  {
    PackSmall(4);
    PackSmall(5);
    PackSmall(6);
    PackSmall(8);
    PackSmall(9);
    hide Pack;
    hide WStrings;
    hide WInts;
    hide FitsSigned;
    hide Pow256;
    ShortConstants();
  }

  lemma ShortConstants()
    ensures T_UINT32 == 4 && T_INT32 == 5 && T_FLOAT32 == 6 && T_STRING == 8 && T_ARRAY == 9 && VERSION == 3 && ALIGN == 32
    ensures MAGIC == [0x47, 0x47, 0x55, 0x46]
  {
  }

  /** "GGUF", version 3, and the numbers of tensors and pairs, in front of both. */
  lemma HeaderLayout(ps: seq<Pair>, ts: seq<Tensor>)
    requires Fits(ps, ts)
    ensures WHeader(ps, ts) == [0x47, 0x47, 0x55, 0x46] + [3, 0, 0, 0] + Pack(|ts|, 8) + Pack(|ps|, 8) + WPairs(ps) + WInfos(ts, |ts|)
  {
    PackSmall(3);
    hide Pack;
    hide WPairs;
    hide WInfos;
    hide Fits;
    assert FitsSigned(|ts|, 8) && FitsSigned(|ps|, 8);
  }

  /** A tensor info: name, number of dimensions, dimensions, type 0 and offset. */
  lemma InfoLayout(t: Tensor, offset: nat)
    requires TensorFits(t)
    ensures var n := Dims(t.ne);
      WInfo(t, offset) == Pack(|t.name|, 8) + t.name + [n, 0, 0, 0] + WDims(t.ne[..n]) + [0, 0, 0, 0] + Pack(offset, 8)
  {
    PackSmall(Dims(t.ne));
    PackSmall(0);
    hide Pack;
    hide WDims;
    hide FitsSigned;
    hide Pow256;
  }

  lemma DimsLayout(ds: seq<nat>, d: nat)
    requires DimsFit(ds + [d])
    ensures DimsFit(ds) && WDims(ds + [d]) == WDims(ds) + Pack(d, 8) && WDims([]) == []
  {
    hide Pack;
    var more := ds + [d];
    assert more[..|more| - 1] == ds && more[|more| - 1] == d;
    assert forall i :: 0 <= i < |ds| ==> more[i] == ds[i];
  }

  lemma StringsLayout(ss: seq<Text>, s: Text)
    ensures WStrings(ss + [s]) == WStrings(ss) + (Pack(|s|, 8) + s) && WStrings([]) == []
  {
    hide Pack;
    var more := ss + [s];
    assert more[..|more| - 1] == ss && more[|more| - 1] == s;
  }

  lemma SignedIn32(n: int)
    requires FitsSigned(n, 4)
    ensures (if n < 0 then n + 0x1_0000_0000 else n) >= 0
    ensures PackSigned(n, 4) == Pack(if n < 0 then n + 0x1_0000_0000 else n, 4)
  {
    PowersOf256();
    assert Pow256(4) == 256 * Pow256(3);
    hide Pow256;
    hide Pack;
  }

  lemma IntsLayout(ns: seq<int>, n: int)
    requires (forall i :: 0 <= i < |ns| ==> FitsSigned(ns[i], 4)) && FitsSigned(n, 4)
    ensures (if n < 0 then n + 0x1_0000_0000 else n) >= 0
    ensures WInts(ns + [n]) == WInts(ns) + Pack(if n < 0 then n + 0x1_0000_0000 else n, 4) && WInts([]) == []
  {
    SignedIn32(n);
    hide Pow256;
    hide Pack;
    hide PackSigned;
    hide FitsSigned;
    var more := ns + [n];
    assert more[..|more| - 1] == ns && more[|more| - 1] == n;
  }

  /** Padding is to 32 bytes. */
  lemma PadIsTo32(n: nat)
    ensures Pad(n) % 32 == 0 && n <= Pad(n) < n + 32
  {
  }
}
