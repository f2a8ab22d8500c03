/** The bytes on the wire, written out: what each typed write appends, and what a read takes. */
module PickleWire {
  import opened PickleFormat

  /** The two, four and eight bytes of a number, lowest first. */
  function Wire2(u: nat): Bytes
    requires u < 0x1_0000
  {
    [(u % 256) as byte, (u / 256) as byte]
  }

  function Wire4(u: nat): Bytes
    requires u < 0x1_0000_0000
  {
    [(u % 256) as byte, (u / 256 % 256) as byte, (u / 0x1_0000 % 256) as byte, (u / 0x100_0000) as byte]
  }

  function Wire8(u: nat): Bytes
    requires u < 0x1_0000_0000_0000_0000
  {
    Wire4(u % 0x1_0000_0000) + Wire4(u / 0x1_0000_0000)
  }

  lemma LE2(u: nat)
    requires u < 0x1_0000
    ensures ToLE(u, 2) == Wire2(u)
  {
    assert ToLE(u / 256, 1) == [(u / 256) as byte];
  }

  lemma LE4(u: nat)
    requires u < 0x1_0000_0000
    ensures ToLE(u, 4) == Wire4(u)
  {
    assert ToLE(u / 256 / 256 / 256, 1) == [(u / 256 / 256 / 256) as byte];
    assert ToLE(u / 256 / 256, 2) == [(u / 256 / 256 % 256) as byte] + ToLE(u / 256 / 256 / 256, 1);
    assert ToLE(u / 256, 3) == [(u / 256 % 256) as byte] + ToLE(u / 256 / 256, 2);
  }

  lemma LE8(u: nat)
    requires u < 0x1_0000_0000_0000_0000
    ensures ToLE(u, 8) == Wire8(u)
  {
    hide ToLE;
    var lo, hi := u % 0x1_0000_0000, u / 0x1_0000_0000;
    LE4(lo);
    LE4(hi);
    LowFirst(lo, hi);
  }

  lemma LowByte(lo: nat, h: nat, k: nat)
    ensures ToLE(lo + 256 * h, k + 1) == [(lo % 256) as byte] + ToLE(lo / 256 + h, k)
  {
    assert (lo + 256 * h) / 256 == lo / 256 + h && (lo + 256 * h) % 256 == lo % 256;
  }

  /** The low bytes come first. */
  lemma LowFirst(lo: nat, hi: nat)
    requires lo < 0x1_0000_0000
    ensures ToLE(lo + 0x1_0000_0000 * hi, 8) == ToLE(lo, 4) + ToLE(hi, 4)
  {
    hide ToLE;
    LowByte(lo, 0x100_0000 * hi, 7);
    LowByte(lo / 256, 0x1_0000 * hi, 6);
    LowByte(lo / 256 / 256, 0x100 * hi, 5);
    LowByte(lo / 256 / 256 / 256, hi, 4);
    assert lo / 256 / 256 / 256 / 256 == 0;
    LE4(lo);
  }

  /** The range of each integer type, and its bytes: negative numbers in two's complement, 16-bit numbers with two
      zeros behind them. */
  lemma WireOfInt16(n: int)
    ensures Fits(Int(I16, n)) <==> -0x8000 <= n < 0x8000
    ensures Fits(Int(I16, n)) ==> Encode(Int(I16, n)) == Wire2(if n < 0 then n + 0x1_0000 else n) + [0, 0]
    ensures Fits(Int(U16, n)) <==> 0 <= n < 0x1_0000
    ensures Fits(Int(U16, n)) ==> Encode(Int(U16, n)) == Wire2(n) + [0, 0]
  {
    hide ToLE;
    Powers();
    if Fits(Int(I16, n)) {
      LE2(if n < 0 then n + 0x1_0000 else n);
    }
    if Fits(Int(U16, n)) {
      LE2(n);
    }
  }

  lemma WireOfInt32(n: int)
    ensures Fits(Int(I32, n)) <==> -0x8000_0000 <= n < 0x8000_0000
    ensures Fits(Int(I32, n)) ==> Encode(Int(I32, n)) == Wire4(if n < 0 then n + 0x1_0000_0000 else n)
    ensures Fits(Int(U32, n)) <==> 0 <= n < 0x1_0000_0000
    ensures Fits(Int(U32, n)) ==> Encode(Int(U32, n)) == Wire4(n)
  {
    hide ToLE, Wire4;
    Powers();
    if Fits(Int(I32, n)) {
      LE4(if n < 0 then n + 0x1_0000_0000 else n);
      NoPadding(IntBytes(I32, n));
    }
    if Fits(Int(U32, n)) {
      LE4(n);
      NoPadding(IntBytes(U32, n));
    }
  }

  lemma WireOfInt64(n: int)
    ensures Fits(Int(I64, n)) <==> -0x8000_0000_0000_0000 <= n < 0x8000_0000_0000_0000
    ensures Fits(Int(I64, n)) ==> Encode(Int(I64, n)) == Wire8(if n < 0 then n + 0x1_0000_0000_0000_0000 else n)
    ensures Fits(Int(U64, n)) <==> 0 <= n < 0x1_0000_0000_0000_0000
    ensures Fits(Int(U64, n)) ==> Encode(Int(U64, n)) == Wire8(n)
  {
    hide ToLE, Wire8;
    Powers();
    if Fits(Int(I64, n)) {
      LE8(if n < 0 then n + 0x1_0000_0000_0000_0000 else n);
      NoPadding(IntBytes(I64, n));
    }
    if Fits(Int(U64, n)) {
      LE8(n);
      NoPadding(IntBytes(U64, n));
    }
  }

  lemma NoPadding(bs: Bytes)
    requires |bs| % 4 == 0
    ensures Padded(bs) == bs
  {
    assert Align(|bs|, 4) == |bs|;
  }

  lemma WireOfBool(b: bool)
    ensures Encode(Bool(b)) == [if b then 1 else 0, 0, 0, 0]
  {
    hide ToLE;
    LE4(if b then 1 else 0);
    NoPadding(ToLE(if b then 1 else 0, 4));
  }

  lemma WireOfFloat(double: bool, bytes: Bytes)
    ensures Fits(Float(double, bytes)) <==> |bytes| == if double then 8 else 4
    ensures Fits(Float(double, bytes)) ==> Encode(Float(double, bytes)) == bytes
  {
    if Fits(Float(double, bytes)) {
      NoPadding(bytes);
    }
  }

  /** The bytes, then at most three zeros up to a multiple of four. */
  ghost predicate IsField(field: Bytes, bytes: Bytes) {
    && |field| % 4 == 0 && |bytes| <= |field| <= |bytes| + 3 && field[..|bytes|] == bytes
    && forall i :: |bytes| <= i < |field| ==> field[i] == 0
  }

  lemma PaddedIsField(bytes: Bytes)
    ensures IsField(Padded(bytes), bytes)
  {
    assert Align(|bytes|, 4) % 4 == 0;
  }

  lemma WireOfRaw(bytes: Bytes)
    requires Fits(Raw(bytes))
    ensures IsField(Encode(Raw(bytes)), bytes)
  {
    PaddedIsField(bytes);
  }

  /** A string: its length as an int32, and its bytes as a field. */
  lemma WireOfText(bytes: Bytes)
    requires Fits(Text(bytes))
    ensures |bytes| < 0x1_0000_0000 && |Encode(Text(bytes))| >= 4
    ensures Encode(Text(bytes))[..4] == Wire4(|bytes|) && IsField(Encode(Text(bytes))[4..], bytes)
  {
    hide ToLE, Wire4, Padded;
    LE4(|bytes|);
    NoPadding(LengthBytes(|bytes|));
    PaddedIsField(bytes);
    assert Encode(Text(bytes)) == LengthBytes(|bytes|) + Padded(bytes);
    assert Encode(Text(bytes))[4..] == Padded(bytes);
  }

  /** A read of some bytes moves the cursor behind their padding, or to the end if that is nearer; one that does not
      fit, or of a negative size, fails and moves it to the end. */
  lemma TakeMoves(payload: Bytes, index: nat, size: int)
    requires index <= |payload|
    ensures var r := Take(payload, index, size);
      if 0 <= size <= |payload| - index then
        && r.Slice? && r.bytes == payload[index..index + size]
        && (r.next == |payload| || (r.next - index) % 4 == 0)
        && (r.next - index < size + 4 && (r.next - index >= size))
      else r == NoSlice(|payload|)
  {
  }
}
