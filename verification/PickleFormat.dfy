/** The byte layout of base/pickle.h: little-endian fields, each padded with zeros to a multiple of four bytes. */
module PickleFormat {

  newtype byte = x: int | 0 <= x < 256

  type Bytes = seq<byte>

  const UINT32_MAX: nat := 0xFFFF_FFFF
  const INT32_MAX: nat := 0x7FFF_FFFF

  // ----- bits::Align --------------------------------------------------------------------------------

  /** Rounds up to a multiple of the alignment; the ones the pickle uses are spelt out for the solver. */
  function Align(size: nat, alignment: nat): (r: nat)
    requires alignment > 0
    ensures size <= r < size + alignment
  {
    if alignment == 4 then (size + 3) / 4 * 4
    else if alignment == 64 then (size + 63) / 64 * 64
    else if alignment == 4096 then (size + 4095) / 4096 * 4096
    else
      RoundsUp(size, alignment);
      (size + alignment - 1) / alignment * alignment
  }

  lemma RoundsUp(size: nat, alignment: nat)
    requires alignment > 0
    ensures size <= (size + alignment - 1) / alignment * alignment < size + alignment
  {
    var q := (size + alignment - 1) / alignment;
    assert size + alignment - 1 == q * alignment + (size + alignment - 1) % alignment;
  }

  /** The result is the least multiple of the alignment that is not below the size. */
  lemma AlignIsLeast(size: nat, alignment: nat, m: nat) returns (k: nat)
    requires alignment > 0
    ensures Align(size, alignment) == k * alignment
    ensures m * alignment >= size ==> k <= m
  {
    k := (size + alignment - 1) / alignment;
    RoundsUp(size, alignment);
    if k > m {
      LessTimes(m, k - 1, alignment);
      assert k * alignment == (k - 1) * alignment + alignment;
    }
  }

  lemma LessTimes(a: nat, b: nat, m: nat)
    requires a <= b
    ensures a * m <= b * m
  {
    assert b * m == a * m + (b - a) * m;
  }

  lemma WordAlign()
    ensures Align(1, 4) == Align(4, 4) == 4
  {
  }

  lemma AlignMultiple(size: nat)
    ensures Align(size, 64) % 64 == 0
  {
  }

  // The source computes (size + a - 1) & ~(a - 1) on 64 bits.

  function Pow2(k: nat): (p: nat)
    ensures p > 0
  {
    if k == 0 then 1 else 2 * Pow2(k - 1)
  }

  function BitAnd(x: nat, y: nat): nat {
    if x == 0 || y == 0 then 0 else 2 * BitAnd(x / 2, y / 2) + (x % 2) * (y % 2)
  }

  lemma {:induction false} Pow2Grows(k: nat, n: nat)
    requires k <= n
    ensures Pow2(k) <= Pow2(n)
    decreases n
  {
    if k < n {
      Pow2Grows(k, n - 1);
    }
  }

  lemma {:induction false} AndWithOnes(x: nat, n: nat)
    requires x < Pow2(n)
    ensures BitAnd(x, Pow2(n) - 1) == x
    decreases n
  {
    if n > 0 {
      AndWithOnes(x / 2, n - 1);
      assert (Pow2(n) - 1) / 2 == Pow2(n - 1) - 1 && (Pow2(n) - 1) % 2 == 1;
    }
  }

  /** Masking the low k of n bits keeps the multiple of 2^k below. */
  lemma {:induction false} MaskRoundsDown(x: nat, k: nat, n: nat) returns (m: nat)
    requires x < Pow2(n) && k <= n
    ensures Pow2(k) <= Pow2(n) && BitAnd(x, Pow2(n) - Pow2(k)) == m * Pow2(k)
    ensures m * Pow2(k) <= x < m * Pow2(k) + Pow2(k)
    decreases n
  {
    hide Pow2, BitAnd;
    Pow2Grows(k, n);
    if k == 0 {
      AndWithOnes(x, n);
      Pow2OfZero();
      m := x;
    } else {
      Pow2Step(k);
      Pow2Step(n);
      m := MaskRoundsDown(x / 2, k - 1, n - 1);
      EvenMask(x, Pow2(n - 1) - Pow2(k - 1));
      TwiceTimes(m, Pow2(k - 1));
    }
  }

  lemma Pow2OfZero()
    ensures Pow2(0) == 1
  {
  }

  lemma Pow2Step(k: nat)
    requires k > 0
    ensures Pow2(k) == 2 * Pow2(k - 1)
  {
  }

  lemma TwiceTimes(m: nat, p: nat)
    ensures m * (2 * p) == 2 * (m * p)
  {
  }

  lemma EvenMask(x: nat, half: nat)
    ensures BitAnd(x, 2 * half) == 2 * BitAnd(x / 2, half)
  {
    assert (2 * half) / 2 == half && (2 * half) % 2 == 0;
  }

  /** For every power of two and every size that does not overflow, the mask computes Align. */
  lemma MaskIsAlign(size: nat, k: nat)
    requires k <= 64 && size + Pow2(k) - 1 < Pow2(64)
    ensures Pow2(k) <= Pow2(64) && BitAnd(size + Pow2(k) - 1, Pow2(64) - Pow2(k)) == Align(size, Pow2(k))
  {
    hide Pow2, BitAnd, Align;
    var a := Pow2(k);
    var m := MaskRoundsDown(size + a - 1, k, 64);
    var q := AlignIsLeast(size, a, m);
    MultiplesApart(q, m, a, size);
  }

  /** Only one multiple of a lies in a window of a numbers. */
  lemma MultiplesApart(q: nat, m: nat, a: nat, size: nat)
    requires a > 0 && size <= q * a < size + a && size <= m * a < size + a
    ensures q * a == m * a
  {
    if q < m {
      NextMultiple(q, m, a);
    } else if m < q {
      NextMultiple(m, q, a);
    }
  }

  lemma NextMultiple(a: nat, b: nat, m: nat)
    requires a < b
    ensures a * m + m <= b * m
  {
    LessTimes(a + 1, b, m);
    assert (a + 1) * m == a * m + m;
  }

  // ----- Little-endian numbers ----------------------------------------------------------------------

  function Pow256(k: nat): (p: int)
    ensures p > 0
  {
    if k == 0 then 1 else 256 * Pow256(k - 1)
  }

  function ToLE(n: nat, k: nat): (bs: Bytes)
    ensures |bs| == k
    decreases k, n
  {
    if k == 0 then [] else [(n % 256) as byte] + ToLE(n / 256, k - 1)
  }

  function FromLE(bs: Bytes): (n: nat)
  {
    if bs == [] then 0 else bs[0] as nat + 256 * FromLE(bs[1..])
  }

  lemma {:induction false} FromToLE(n: nat, k: nat)
    requires n < Pow256(k)
    ensures FromLE(ToLE(n, k)) == n
    decreases k
  {
    if k > 0 {
      FromToLE(n / 256, k - 1);
      assert ToLE(n, k)[1..] == ToLE(n / 256, k - 1);
    }
  }

  lemma {:induction false} ToFromLE(bs: Bytes)
    ensures FromLE(bs) < Pow256(|bs|)
    ensures ToLE(FromLE(bs), |bs|) == bs
    decreases |bs|
  {
    if bs != [] {
      ToFromLE(bs[1..]);
      assert FromLE(bs) / 256 == FromLE(bs[1..]);
      assert bs == [bs[0]] + bs[1..];
    }
  }

  lemma Powers()
    ensures Pow256(1) == 0x100 && Pow256(2) == 0x1_0000 && Pow256(4) == 0x1_0000_0000
    ensures Pow256(8) == 0x1_0000_0000_0000_0000
  {
    assert Pow256(3) == 256 * Pow256(2);
    assert Pow256(4) == 256 * Pow256(3);
    assert Pow256(6) == 256 * (256 * Pow256(4));
  }

  predicate SignedFits(n: int, k: nat) { -Pow256(k) <= 2 * n < Pow256(k) }

  predicate UnsignedFits(n: int, k: nat) { 0 <= n < Pow256(k) }

  /** Two's complement. */
  function ToUnsigned(n: int, k: nat): (u: nat)
    requires SignedFits(n, k)
  {
    if n < 0 then n + Pow256(k) else n
  }

  function ToSigned(u: nat, k: nat): (n: int) {
    if 2 * u >= Pow256(k) then u - Pow256(k) else u
  }

  // ----- Values -------------------------------------------------------------------------------------

  datatype IntType = I16 | I32 | I64 | U16 | U32 | U64 {
    function Width(): nat {
      if this == I16 || this == U16 then 2 else if this == I32 || this == U32 then 4 else 8
    }

    predicate Signed() { this == I16 || this == I32 || this == I64 }

    predicate Holds(n: int) {
      if Signed() then SignedFits(n, Width()) else UnsignedFits(n, Width())
    }
  }

  /** One typed write. A float or double is the bytes of its representation; strings and data have one layout. */
  datatype Value =
    | Bool(b: bool)
    | Int(t: IntType, n: int)
    | Float(double: bool, bytes: Bytes)
    | Text(bytes: Bytes)
    | Raw(bytes: Bytes)

  /** One typed read. */
  datatype Kind = KBool | KInt(t: IntType) | KFloat(double: bool) | KText | KRaw(length: int)

  function FloatWidth(double: bool): nat { if double then 8 else 4 }

  /** The value is one its C++ type can hold. */
  predicate Fits(v: Value) {
    match v
    case Bool(_) => true
    case Int(t, n) => t.Holds(n)
    case Float(double, bytes) => |bytes| == FloatWidth(double)
    case Text(bytes) => |bytes| <= INT32_MAX
    case Raw(bytes) => |bytes| <= INT32_MAX
  }

  function KindOf(v: Value): Kind {
    match v
    case Bool(_) => KBool
    case Int(t, _) => KInt(t)
    case Float(double, _) => KFloat(double)
    case Text(_) => KText
    case Raw(bytes) => KRaw(|bytes|)
  }

  function Zeros(n: nat): (z: Bytes)
    ensures |z| == n
  {
    seq(n, i => 0)
  }

  /** A field: its bytes and its padding. */
  function Padded(bs: Bytes): (r: Bytes)
    ensures |r| == Align(|bs|, 4) && bs <= r
  {
    bs + Zeros(Align(|bs|, 4) - |bs|)
  }

  function IntBytes(t: IntType, n: int): (r: Bytes)
    requires t.Holds(n)
    ensures |r| == t.Width()
  {
    ToLE(if t.Signed() then ToUnsigned(n, t.Width()) else n, t.Width())
  }

  /** The length prefix of a string or of data, written as an int32. */
  function LengthBytes(n: nat): (r: Bytes)
    ensures |r| == 4
  {
    ToLE(n, 4)
  }

  /** What one typed write appends to the payload. */
  function Encode(v: Value): (r: Bytes)
    requires Fits(v)
  {
    match v
    case Bool(b) => Padded(ToLE(if b then 1 else 0, 4))
    case Int(t, n) => Padded(IntBytes(t, n))
    case Float(_, bytes) => Padded(bytes)
    case Text(bytes) => Padded(LengthBytes(|bytes|)) + Padded(bytes)
    case Raw(bytes) => Padded(bytes)
  }

  function EncodeAll(vs: seq<Value>): (r: Bytes)
    requires forall i :: 0 <= i < |vs| ==> Fits(vs[i])
  {
    if vs == [] then [] else Encode(vs[0]) + EncodeAll(vs[1..])
  }

  lemma {:induction false} EncodeAllAppend(vs: seq<Value>, v: Value)
    requires Fits(v) && forall i :: 0 <= i < |vs| ==> Fits(vs[i])
    ensures EncodeAll(vs + [v]) == EncodeAll(vs) + Encode(v)
    decreases |vs|
  {
    hide Encode, Fits;
    if vs == [] {
      assert [v][1..] == [];
    } else {
      EncodeAllAppend(vs[1..], v);
      assert (vs + [v])[1..] == vs[1..] + [v];
    }
  }

  // ----- The clamping reader ------------------------------------------------------------------------

  /** PickleIterator::Advance. */
  function Advance(end: nat, index: nat, size: nat): (r: nat)
    requires index <= end
    ensures index <= r <= end
  {
    if end - index < Align(size, 4) then end else index + Align(size, 4)
  }

  datatype Slice = Slice(bytes: Bytes, next: nat) | NoSlice(next: nat)
  datatype Number = Number(n: int, next: nat) | NoNumber(next: nat)
  datatype Reading = Got(value: Value, next: nat) | Failed(next: nat)

  /** GetReadPointerAndAdvance: a slice of the payload, or nothing and the cursor at the end. */
  function Take(payload: Bytes, index: nat, size: int): (r: Slice)
    requires index <= |payload|
    ensures index <= r.next <= |payload|
    ensures r.Slice? ==> 0 <= size <= |payload| - index && r.bytes == payload[index..index + size]
    ensures r.NoSlice? ==> r.next == |payload|
  {
    if size < 0 || |payload| - index < size then NoSlice(|payload|)
    else Slice(payload[index..index + size], Advance(|payload|, index, size))
  }

  function ReadInt(payload: Bytes, index: nat, size: nat, signed: bool): (r: Number)
    requires index <= |payload|
    ensures index <= r.next <= |payload|
  {
    match Take(payload, index, size)
    case NoSlice(next) => NoNumber(next)
    case Slice(bs, next) => Number(if signed then ToSigned(FromLE(bs), size) else FromLE(bs), next)
  }

  /** ReadString, ReadStringPiece and ReadData: a length, then that many bytes. */
  function ReadSized(payload: Bytes, index: nat): (r: Slice)
    requires index <= |payload|
    ensures index <= r.next <= |payload|
  {
    match ReadInt(payload, index, 4, true)
    case NoNumber(next) => NoSlice(next)
    case Number(len, next) => Take(payload, next, len)
  }

  function AsBlob(k: Kind, r: Slice): (v: Reading)
    ensures v.next == r.next
  {
    match r
    case NoSlice(next) => Failed(next)
    case Slice(bs, next) =>
      match k
      case KBool => Got(Bool(FromLE(bs) != 0), next)
      case KFloat(double) => Got(Float(double, bs), next)
      case KText => Got(Text(bs), next)
      case _ => Got(Raw(bs), next)
  }

  function AsInt(t: IntType, r: Number): (v: Reading)
    ensures v.next == r.next
  {
    match r
    case NoNumber(next) => Failed(next)
    case Number(n, next) => Got(Int(t, n), next)
  }

  /** One typed read at a cursor: the value or failure, and the cursor after it. */
  function Read(k: Kind, payload: Bytes, index: nat): (r: Reading)
    requires index <= |payload|
    ensures index <= r.next <= |payload|
  {
    match k
    case KBool => AsBlob(k, Take(payload, index, 1))
    case KInt(t) => AsInt(t, ReadInt(payload, index, t.Width(), t.Signed()))
    case KFloat(double) => AsBlob(k, Take(payload, index, FloatWidth(double)))
    case KText => AsBlob(k, ReadSized(payload, index))
    case KRaw(n) => AsBlob(k, Take(payload, index, n))
  }

  /** Reads of a fixed size of at least one byte. */
  predicate FixedSize(k: Kind) {
    !k.KRaw? || k.length > 0
  }

  // ----- Round trip ---------------------------------------------------------------------------------

  /** The payload has these bytes at this offset. */
  predicate At(payload: Bytes, index: nat, bs: Bytes) {
    index + |bs| <= |payload| && forall i :: 0 <= i < |bs| ==> payload[index + i] == bs[i]
  }

  lemma AtSplit(payload: Bytes, index: nat, a: Bytes, b: Bytes)
    requires At(payload, index, a + b)
    ensures At(payload, index, a) && At(payload, index + |a|, b)
  {
    forall i | 0 <= i < |a|
      ensures payload[index + i] == a[i]
    {
      assert (a + b)[i] == a[i];
    }
    forall i | 0 <= i < |b|
      ensures payload[index + |a| + i] == b[i]
    {
      assert (a + b)[|a| + i] == b[i];
    }
  }

  /** Reading a field, or as much of it as has the same padded size. */
  lemma TakeField(payload: Bytes, index: nat, field: Bytes, size: nat)
    requires At(payload, index, Padded(field))
    requires size <= |field| && Align(size, 4) == Align(|field|, 4)
    ensures Take(payload, index, size) == Slice(field[..size], index + |Padded(field)|)
  {
    assert forall i :: 0 <= i < size ==> payload[index + i] == Padded(field)[i];
    assert payload[index..index + size] == field[..size];
  }

  lemma TakeWhole(payload: Bytes, index: nat, field: Bytes)
    requires At(payload, index, Padded(field))
    ensures Take(payload, index, |field|) == Slice(field, index + |Padded(field)|)
  {
    TakeField(payload, index, field, |field|);
    assert field[..|field|] == field;
  }

  lemma SignedRoundTrip(n: int, k: nat)
    requires SignedFits(n, k)
    ensures ToUnsigned(n, k) < Pow256(k) && ToSigned(ToUnsigned(n, k), k) == n
  {
  }

  lemma ReadIntField(payload: Bytes, index: nat, t: IntType, n: int)
    requires t.Holds(n) && At(payload, index, Padded(IntBytes(t, n)))
    ensures ReadInt(payload, index, t.Width(), t.Signed()) == Number(n, index + |Padded(IntBytes(t, n))|)
  {
    TakeWhole(payload, index, IntBytes(t, n));
    if t.Signed() {
      SignedRoundTrip(n, t.Width());
      FromToLE(ToUnsigned(n, t.Width()), t.Width());
    } else {
      FromToLE(n, t.Width());
    }
  }

  lemma LengthField(payload: Bytes, index: nat, n: nat)
    requires n <= INT32_MAX && At(payload, index, Padded(LengthBytes(n)))
    ensures ReadInt(payload, index, 4, true) == Number(n, index + |Padded(LengthBytes(n))|)
  {
    Powers();
    ReadIntField(payload, index, I32, n);
  }

  /** A length and then that many bytes. */
  lemma ReadSizedParts(payload: Bytes, index: nat, mid: nat, text: Bytes)
    requires index <= |payload| && mid <= |payload|
    requires ReadInt(payload, index, 4, true) == Number(|text|, mid)
    requires At(payload, mid, Padded(text))
    ensures ReadSized(payload, index) == Slice(text, mid + |Padded(text)|)
  {
    TakeWhole(payload, mid, text);
  }

  lemma ReadText(payload: Bytes, index: nat, text: Bytes)
    requires |text| <= INT32_MAX && At(payload, index, Padded(LengthBytes(|text|)) + Padded(text))
    ensures ReadSized(payload, index) == Slice(text, index + |Padded(LengthBytes(|text|)) + Padded(text)|)
  {
    var len := Padded(LengthBytes(|text|));
    AtSplit(payload, index, len, Padded(text));
    LengthField(payload, index, |text|);
    ReadSizedParts(payload, index, index + |len|, text);
  }

  /** WriteBool stores an int32, ReadBool looks at its first byte. */
  lemma ReadBool(payload: Bytes, index: nat, b: bool)
    requires At(payload, index, Encode(Bool(b)))
    ensures Read(KBool, payload, index) == Got(Bool(b), index + |Encode(Bool(b))|)
  {
    hide Align, ToLE, FromLE, Take, At, Padded;
    WordAlign();
    var field := ToLE(if b then 1 else 0, 4);
    TakeField(payload, index, field, 1);
    FirstByteOfBool(b);
  }

  lemma FirstByteOfBool(b: bool)
    ensures FromLE(ToLE(if b then 1 else 0, 4)[..1]) != 0 <==> b
  {
    var n := if b then 1 else 0;
    var field := ToLE(n, 4);
    assert field[..1] == [n as byte];
    assert FromLE([n as byte]) == n + 256 * FromLE([]);
  }

  /** A slice with the bytes in front and zeros up to the alignment is the padded field. */
  lemma IsPadded(slice: Bytes, data: Bytes)
    requires |slice| == Align(|data|, 4)
    requires forall i :: 0 <= i < |data| ==> slice[i] == data[i]
    requires forall i :: |data| <= i < |slice| ==> slice[i] == 0
    ensures slice == Padded(data)
  {
    hide Align;
  }

  /** A typed read at the place of the matching typed write returns its value and moves just past it. */
  lemma ReadEncoded(payload: Bytes, index: nat, v: Value)
    requires Fits(v) && At(payload, index, Encode(v))
    ensures Read(KindOf(v), payload, index) == Got(v, index + |Encode(v)|)
  {
    match v
    case Bool(b) => ReadBool(payload, index, b);
    case Int(t, n) => ReadIntField(payload, index, t, n);
    case Float(_, bytes) => TakeWhole(payload, index, bytes);
    case Text(bytes) => ReadText(payload, index, bytes);
    case Raw(bytes) => TakeWhole(payload, index, bytes);
  }

  datatype Readings = AllGot(values: seq<Value>, next: nat) | SomeFailed(next: nat)

  /** The results of reading a sequence of kinds, stopping at the first failure. */
  function ReadAll(ks: seq<Kind>, payload: Bytes, index: nat): (r: Readings)
    requires index <= |payload|
    ensures r.next <= |payload|
  {
    if ks == [] then AllGot([], index)
    else
      match Read(ks[0], payload, index)
      case Failed(next) => SomeFailed(next)
      case Got(v, next) =>
        match ReadAll(ks[1..], payload, next)
        case SomeFailed(last) => SomeFailed(last)
        case AllGot(vs, last) => AllGot([v] + vs, last)
  }

  function Kinds(vs: seq<Value>): (ks: seq<Kind>)
    ensures |ks| == |vs|
  {
    seq(|vs|, i requires 0 <= i < |vs| => KindOf(vs[i]))
  }

  /** One more successful read in front. */
  lemma ReadAllStep(ks: seq<Kind>, payload: Bytes, index: nat, v: Value, next: nat, vs: seq<Value>, last: nat)
    requires ks != [] && index <= |payload| && next <= |payload|
    requires Read(ks[0], payload, index) == Got(v, next)
    requires ReadAll(ks[1..], payload, next) == AllGot(vs, last)
    ensures ReadAll(ks, payload, index) == AllGot([v] + vs, last)
  {
  }

  lemma KindsTail(vs: seq<Value>)
    requires vs != []
    ensures Kinds(vs)[0] == KindOf(vs[0]) && Kinds(vs)[1..] == Kinds(vs[1..])
  {
    assert Kinds(vs)[1..] == Kinds(vs[1..]);
  }

  lemma {:induction false} ReadAllFrom(payload: Bytes, index: nat, vs: seq<Value>)
    requires forall i :: 0 <= i < |vs| ==> Fits(vs[i])
    requires At(payload, index, EncodeAll(vs))
    ensures ReadAll(Kinds(vs), payload, index) == AllGot(vs, index + |EncodeAll(vs)|)
    decreases |vs|
  {
    hide Read, Encode, Fits;
    if vs != [] {
      var next, rest := index + |Encode(vs[0])|, vs[1..];
      AtSplit(payload, index, Encode(vs[0]), EncodeAll(rest));
      ReadAllFrom(payload, next, rest);
      ReadAllCons(payload, index, vs[0], rest, next + |EncodeAll(rest)|);
      assert [vs[0]] + rest == vs;
    }
  }

  lemma ReadAllCons(payload: Bytes, index: nat, v: Value, vs: seq<Value>, last: nat)
    requires Fits(v) && At(payload, index, Encode(v))
    requires ReadAll(Kinds(vs), payload, index + |Encode(v)|) == AllGot(vs, last)
    ensures ReadAll(Kinds([v] + vs), payload, index) == AllGot([v] + vs, last)
  {
    hide Read, Encode, Fits;
    ReadEncoded(payload, index, v);
    KindsTail([v] + vs);
    ReadAllStep(Kinds([v] + vs), payload, index, v, index + |Encode(v)|, vs, last);
  }

  /** Round trip: reading the same types returns the same values in order, and then every read of at least one
      byte fails. */
  lemma RoundTrip(vs: seq<Value>, next: Kind)
    requires forall i :: 0 <= i < |vs| ==> Fits(vs[i])
    requires FixedSize(next)
    ensures ReadAll(Kinds(vs), EncodeAll(vs), 0) == AllGot(vs, |EncodeAll(vs)|)
    ensures Read(next, EncodeAll(vs), |EncodeAll(vs)|) == Failed(|EncodeAll(vs)|)
  {
    ReadAllFrom(EncodeAll(vs), 0, vs);
  }
}
