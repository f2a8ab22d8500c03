/** The pickle itself: the growing buffer, the cursor over it, and the size predictor. */
module Pickle {
  import opened PickleFormat

  const PAYLOAD_UNIT: nat := 64
  const HEAP_ALIGN: nat := 4096

  // ----- Growth -------------------------------------------------------------------------------------

  /** The sizes of a buffer: bytes written, bytes allocated after the header, and the sum of all the
      capacities it had before, which bounds what realloc may have copied. */
  datatype Sizes = Sizes(written: nat, capacity: nat, copied: nat)

  /** The capacity ClaimUninitializedBytesInternal asks Resize for. */
  function NewCapacity(capacity: nat, newSize: nat): nat
    requires capacity >= PAYLOAD_UNIT
  {
    var doubled := capacity * 2;
    var rounded := if doubled > HEAP_ALIGN then Align(doubled, HEAP_ALIGN) - PAYLOAD_UNIT else doubled;
    if rounded < newSize then newSize else rounded
  }

  lemma NewCapacityFits(capacity: nat, newSize: nat)
    requires capacity >= PAYLOAD_UNIT && newSize > capacity
    ensures Align(NewCapacity(capacity, newSize), PAYLOAD_UNIT) >= newSize
  {
  }

  function Claim(s: Sizes, length: nat): Sizes
    requires s.capacity >= PAYLOAD_UNIT
  {
    var newSize := s.written + Align(length, 4);
    if newSize > s.capacity
    then Sizes(newSize, Align(NewCapacity(s.capacity, newSize), PAYLOAD_UNIT), s.copied + s.capacity)
    else Sizes(newSize, s.capacity, s.copied)
  }

  function ClaimAll(s: Sizes, lengths: seq<nat>): Sizes
    requires s.capacity >= PAYLOAD_UNIT
    decreases |lengths|
  {
    if lengths == [] then s
    else
      ClaimGrows(s, lengths[0]);
      ClaimAll(Claim(s, lengths[0]), lengths[1..])
  }

  /** Writing is amortised linear: the buffer is at most about twice the payload, and all that was ever copied
      at most twice the buffer. */
  predicate Amortised(s: Sizes) {
    && s.capacity % PAYLOAD_UNIT == 0 && s.capacity >= PAYLOAD_UNIT
    && s.written <= s.capacity <= 2 * s.written + HEAP_ALIGN
    && s.copied <= 2 * s.capacity
  }

  lemma ClaimGrows(s: Sizes, length: nat)
    requires s.capacity >= PAYLOAD_UNIT
    ensures Claim(s, length).capacity >= s.capacity
    ensures Claim(s, length).capacity >= Claim(s, length).written
  {
  }

  /** What a write does to the sizes, in plain numbers: nothing while it fits; else the capacity doubles, to 64 bytes
      short of whole pages once that is more than a page, or just holds the new size. */
  lemma GrowthRule(s: Sizes, length: nat)
    requires s.capacity >= 64 && s.capacity % 64 == 0
    ensures var t := Claim(s, length);
      && length <= t.written - s.written < length + 4 && (t.written - s.written) % 4 == 0
      && if t.written <= s.capacity then t.capacity == s.capacity && t.copied == s.copied
         else
           && t.copied == s.copied + s.capacity && t.capacity % 64 == 0 && t.capacity >= t.written
           && t.capacity >= (if 2 * s.capacity <= 4096 then 2 * s.capacity else 2 * s.capacity - 64)
           && (|| t.capacity < t.written + 64
               || (2 * s.capacity <= 4096 && t.capacity == 2 * s.capacity)
               || (2 * s.capacity > 4096 && (t.capacity + 64) % 4096 == 0 && t.capacity + 64 < 2 * s.capacity + 4096))
  {
    RoundedTo4(length);
    var newSize := s.written + Align(length, 4);
    if newSize > s.capacity {
      hide Align;
      CapacityRule(s.capacity, newSize);
    }
  }

  lemma RoundedTo4(length: nat)
    ensures Align(length, 4) % 4 == 0
  {
  }

  lemma CapacityRule(capacity: nat, newSize: nat)
    requires capacity >= 64 && capacity % 64 == 0
    ensures var got := Align(NewCapacity(capacity, newSize), 64);
      && got % 64 == 0 && got >= newSize
      && got >= (if 2 * capacity <= 4096 then 2 * capacity else 2 * capacity - 64)
      && (|| got < newSize + 64
          || (2 * capacity <= 4096 && got == 2 * capacity)
          || (2 * capacity > 4096 && (got + 64) % 4096 == 0 && got + 64 < 2 * capacity + 4096))
  {
    var wanted := NewCapacity(capacity, newSize);
    AlignMultiple(wanted);
    if wanted != newSize {
      PageRule(capacity);
    }
  }

  lemma PageRule(capacity: nat)
    requires capacity >= 64 && capacity % 64 == 0
    ensures var rounded := if 2 * capacity > 4096 then Align(2 * capacity, 4096) - 64 else 2 * capacity;
      && Align(rounded, 64) == rounded
      && (2 * capacity > 4096 ==> (rounded + 64) % 4096 == 0)
  {
  }

  /** Each growth is by a factor of at least 1.5. */
  lemma GrowthFactor(s: Sizes, length: nat)
    requires s.capacity >= PAYLOAD_UNIT && Claim(s, length).capacity != s.capacity
    ensures 2 * Claim(s, length).capacity >= 3 * s.capacity
  {
  }

  lemma ClaimKeepsAmortised(s: Sizes, length: nat)
    requires Amortised(s)
    ensures Amortised(Claim(s, length))
  {
    var t := Claim(s, length);
    ClaimGrows(s, length);
    if t.capacity != s.capacity {
      GrowthFactor(s, length);
      AlignMultiple(NewCapacity(s.capacity, t.written));
    }
  }

  /** Over any sequence of writes into a new pickle the capacity and all the copying stay linear in the payload. */
  lemma {:induction false} AmortisedGrowth(s: Sizes, lengths: seq<nat>)
    requires Amortised(s)
    ensures Amortised(ClaimAll(s, lengths))
    ensures ClaimAll(s, lengths).copied <= 4 * ClaimAll(s, lengths).written + 2 * HEAP_ALIGN
    decreases |lengths|
  {
    if lengths != [] {
      ClaimKeepsAmortised(s, lengths[0]);
      AmortisedGrowth(Claim(s, lengths[0]), lengths[1..]);
    }
  }

  lemma Assoc(a: Bytes, b: Bytes, c: Bytes)
    ensures a + b + c == a + (b + c)
  {
  }

  lemma SamePrefix(a: Bytes, b: Bytes, header: nat, end: nat)
    requires 4 <= header <= end <= |a| && end <= |b| && forall i :: 0 <= i < end ==> a[i] == b[i]
    ensures a[..4] == b[..4] && a[header..end] == b[header..end]
  {
  }

  lemma SliceSplit(bs: Bytes, from: nat, at: nat, end: nat)
    requires from <= at <= end <= |bs|
    ensures bs[from..end] == bs[from..at] + bs[at..end]
  {
  }

  /** The bytes of a value that is written in one field. */
  function Field(v: Value): Bytes
    requires Fits(v) && !v.Text?
  {
    if v.Bool? then ToLE(if v.b then 1 else 0, 4) else if v.Int? then IntBytes(v.t, v.n) else v.bytes
  }

  lemma FieldEncodes(v: Value)
    requires Fits(v)
    ensures !v.Text? ==> Encode(v) == Padded(Field(v)) && |Encode(v)| == Align(|Field(v)|, 4)
    ensures v.Text? ==> Encode(v) == Padded(LengthBytes(|v.bytes|)) + Padded(v.bytes)
  {
    hide ToLE, IntBytes;
  }

  // ----- The buffer ---------------------------------------------------------------------------------

  class Pickle {
    var headerSize: nat
    var capacity: nat       // capacity_after_header_
    var writeOffset: nat
    var buffer: array<byte> // the header, then the payload, then room
    ghost var copied: nat

    ghost predicate Valid()
      reads this, buffer
    {
      && 4 <= headerSize <= PAYLOAD_UNIT && Align(headerSize, 4) == headerSize
      && PAYLOAD_UNIT <= capacity && writeOffset <= capacity && writeOffset <= UINT32_MAX
      && buffer.Length == headerSize + capacity
      && buffer[..4] == ToLE(writeOffset, 4)
    }

    ghost function Sized(): Sizes
      reads this
    {
      Sizes(writeOffset, capacity, copied)
    }

    ghost function Payload(): Bytes
      requires Valid()
      reads this, buffer
    {
      buffer[headerSize..headerSize + writeOffset]
    }

    /** What data() and size() hand out. */
    ghost function Image(): Bytes
      requires Valid()
      reads this, buffer
    {
      buffer[..headerSize + writeOffset]
    }

    constructor (header: nat)
      requires 4 <= header <= PAYLOAD_UNIT
      ensures Valid() && fresh(buffer)
      ensures headerSize == Align(header, 4) && Payload() == []
      ensures Sized() == Sizes(0, PAYLOAD_UNIT, 0) && Amortised(Sized())
    {
      headerSize := Align(header, 4);
      capacity := PAYLOAD_UNIT;
      writeOffset := 0;
      copied := 0;
      buffer := new byte[Align(header, 4) + PAYLOAD_UNIT];
      new;
      SetPayloadSize(0);
    }

    /** header_->payload_size = size */
    method SetPayloadSize(size: nat)
      requires buffer.Length >= 4
      modifies buffer
      ensures buffer[..4] == ToLE(size, 4)
      ensures forall i :: 4 <= i < buffer.Length ==> buffer[i] == old(buffer[i])
    {
      var bytes := ToLE(size, 4);
      forall i | 0 <= i < 4 {
        buffer[i] := bytes[i];
      }
      assert buffer[..4] == bytes;
    }

    /** Resize: realloc keeps what fits, and so the payload if that does. */
    method Resize(newCapacity: nat)
      modifies this`capacity, this`buffer, this`copied
      ensures capacity == Align(newCapacity, PAYLOAD_UNIT) && copied == old(copied) + old(capacity)
      ensures fresh(buffer) && buffer.Length == headerSize + capacity
      ensures forall i :: 0 <= i < buffer.Length && i < old(buffer.Length) ==> buffer[i] == old(buffer[i])
      ensures old(Valid()) && PAYLOAD_UNIT <= capacity && writeOffset <= capacity ==>
                Valid() && Payload() == old(Payload())
    {
      hide Align, ToLE;
      var oldBuffer := buffer;
      ghost var was := buffer[..];
      copied := copied + capacity;
      capacity := Align(newCapacity, PAYLOAD_UNIT);
      var p := new byte[headerSize + capacity];
      forall i | 0 <= i < oldBuffer.Length && i < p.Length {
        p[i] := oldBuffer[i];
      }
      buffer := p;
      assert oldBuffer[..] == was;
      if old(Valid()) && PAYLOAD_UNIT <= capacity && writeOffset <= capacity {
        SamePrefix(was, buffer[..], headerSize, headerSize + writeOffset);
      }
    }

    /** Room behind the payload for a new size, and the payload where it was. */
    method Grow(newSize: nat)
      requires Valid() && newSize > capacity
      modifies this`capacity, this`buffer, this`copied
      ensures Valid() && fresh(buffer) && Payload() == old(Payload()) && newSize <= capacity
      ensures capacity == Align(NewCapacity(old(capacity), newSize), PAYLOAD_UNIT) && copied == old(copied) + old(capacity)
    {
      hide ToLE, NewCapacity;
      NewCapacityFits(capacity, newSize);
      hide Align;
      Resize(NewCapacity(capacity, newSize));
    }

    /** ClaimUninitializedBytesInternal: room for `length` bytes, padding zeroed, header and offset updated. */
    method ClaimBytes(length: nat) returns (at: nat)
      requires Valid() && writeOffset + Align(length, 4) <= UINT32_MAX
      modifies this`capacity, this`buffer, this`copied, this`writeOffset, buffer
      ensures Valid() && (buffer == old(buffer) || fresh(buffer))
      ensures Sized() == Claim(old(Sized()), length)
      ensures at == headerSize + old(writeOffset) && writeOffset == old(writeOffset) + Align(length, 4)
      ensures buffer[headerSize..at] == old(Payload())
      ensures forall i :: at + length <= i < headerSize + writeOffset ==> buffer[i] == 0
    {
      hide ToLE, Align, NewCapacity;
      ghost var payload := Payload();
      var dataLength := Align(length, 4);
      var newSize := writeOffset + dataLength;
      if newSize > capacity {
        Grow(newSize);
      }
      at := headerSize + writeOffset;
      forall i | at + length <= i < at + dataLength {
        buffer[i] := 0;
      }
      SetPayloadSize(newSize);
      writeOffset := newSize;
      assert buffer[headerSize..at] == payload;
    }

    /** WriteBytesCommon. */
    method WriteField(data: Bytes)
      requires Valid() && writeOffset + Align(|data|, 4) <= UINT32_MAX
      modifies this`capacity, this`buffer, this`copied, this`writeOffset, buffer
      ensures Valid() && (buffer == old(buffer) || fresh(buffer))
      ensures Sized() == Claim(old(Sized()), |data|)
      ensures Payload() == old(Payload()) + Padded(data)
    {
      hide Claim, ToLE, Align, Padded;
      ghost var payload := Payload();
      var at := ClaimBytes(|data|);
      ghost var was, end := buffer[..], headerSize + writeOffset;
      forall i | 0 <= i < |data| {
        buffer[at + i] := data[i];
      }
      ghost var now := buffer[..];
      assert forall i :: 0 <= i < |now| ==> now[i] == if at <= i < at + |data| then data[i - at] else was[i];
      SamePrefix(was, now, headerSize, at);
      IsPadded(now[at..end], data);
      SliceSplit(now, headerSize, at, end);
    }

    /** WriteString and WriteData: the length, then the bytes. */
    method WriteText(text: Bytes)
      requires Valid() && writeOffset + |Padded(LengthBytes(|text|))| + |Padded(text)| <= UINT32_MAX
      modifies this`capacity, this`buffer, this`copied, this`writeOffset, buffer
      ensures Valid() && (buffer == old(buffer) || fresh(buffer))
      ensures old(Amortised(Sized())) ==> Amortised(Sized())
      ensures Payload() == old(Payload()) + (Padded(LengthBytes(|text|)) + Padded(text))
    {
      hide Claim, Amortised, LengthBytes;
      ghost var payload, before := Payload(), Sized();
      WriteField(LengthBytes(|text|));
      ghost var middle := Sized();
      WriteField(text);
      if Amortised(before) {
        ClaimKeepsAmortised(before, 4);
        ClaimKeepsAmortised(middle, |text|);
      }
      Assoc(payload, Padded(LengthBytes(|text|)), Padded(text));
    }

    /** WriteBool, WriteInt16 to WriteUInt64, WriteFloat, WriteDouble, WriteString, WriteData and WriteBytes. */
    method Write(v: Value)
      requires Valid() && Fits(v) && writeOffset + |Encode(v)| <= UINT32_MAX
      modifies this`capacity, this`buffer, this`copied, this`writeOffset, buffer
      ensures Valid() && (buffer == old(buffer) || fresh(buffer))
      ensures old(Amortised(Sized())) ==> Amortised(Sized())
      ensures Payload() == old(Payload()) + Encode(v)
    {
      hide Claim, Amortised, ToLE, Encode, Padded, Align, Field, Fits;
      FieldEncodes(v);
      if v.Text? {
        WriteText(v.bytes);
        return;
      }
      ghost var before := Sized();
      var field := Field(v);
      if Amortised(before) {
        ClaimKeepsAmortised(before, |field|);
      }
      WriteField(field);
    }

    /** Any sequence of typed writes, through any number of growths, appends exactly their encoding. */
    method WriteAll(vs: seq<Value>)
      requires Valid() && (forall i :: 0 <= i < |vs| ==> Fits(vs[i]))
      requires writeOffset + |EncodeAll(vs)| <= UINT32_MAX
      modifies this`capacity, this`buffer, this`copied, this`writeOffset, buffer
      ensures Valid() && (buffer == old(buffer) || fresh(buffer))
      ensures old(Amortised(Sized())) ==> Amortised(Sized())
      ensures Payload() == old(Payload()) + EncodeAll(vs)
    {
      hide Encode, Fits, Amortised, ToLE, Align;
      ghost var payload := Payload();
      for i := 0 to |vs|
        invariant Valid() && (buffer == old(buffer) || fresh(buffer))
        invariant old(Amortised(Sized())) ==> Amortised(Sized())
        invariant Payload() == payload + EncodeAll(vs[..i])
      {
        EncodePrefix(vs, i);
        Write(vs[i]);
        Assoc(payload, EncodeAll(vs[..i]), Encode(vs[i]));
      }
      assert vs[..|vs|] == vs;
    }
  }

  /** The encoding of a prefix is a prefix of the encoding. */
  lemma EncodePrefix(vs: seq<Value>, i: nat)
    requires i < |vs| && forall j :: 0 <= j < |vs| ==> Fits(vs[j])
    ensures EncodeAll(vs[..i + 1]) == EncodeAll(vs[..i]) + Encode(vs[i])
    ensures |EncodeAll(vs[..i])| + |Encode(vs[i])| <= |EncodeAll(vs)|
  {
    hide Encode, Fits;
    assert vs[..i + 1] == vs[..i] + [vs[i]];
    EncodeAllAppend(vs[..i], vs[i]);
    EncodeAllConcat(vs[..i + 1], vs[i + 1..]);
    assert vs == vs[..i + 1] + vs[i + 1..];
  }

  lemma {:induction false} EncodeAllConcat(vs: seq<Value>, ws: seq<Value>)
    requires forall i :: 0 <= i < |vs| ==> Fits(vs[i])
    requires forall i :: 0 <= i < |ws| ==> Fits(ws[i])
    ensures EncodeAll(vs + ws) == EncodeAll(vs) + EncodeAll(ws)
    decreases |vs|
  {
    hide Encode, Fits;
    if vs == [] {
      assert vs + ws == ws;
    } else {
      EncodeAllConcat(vs[1..], ws);
      assert (vs + ws)[1..] == vs[1..] + ws;
    }
  }

  // ----- The cursor ---------------------------------------------------------------------------------

  class PickleIterator {
    const payload: Bytes
    var readIndex: nat

    ghost predicate Valid()
      reads this
    {
      readIndex <= |payload|
    }

    constructor (bytes: Bytes)
      ensures Valid() && payload == bytes && readIndex == 0
    {
      payload, readIndex := bytes, 0;
    }

    /** GetReadPointerAndAdvance and, inside it, Advance. */
    method GetAndAdvance(size: int) returns (r: Slice)
      requires Valid()
      modifies this
      ensures Valid() && r == Take(payload, old(readIndex), size) && readIndex == r.next
    {
      if size < 0 || |payload| - readIndex < size {
        readIndex := |payload|;
        return NoSlice(readIndex);
      }
      var bytes := payload[readIndex..readIndex + size];
      var aligned := Align(size, 4);
      if |payload| - readIndex < aligned {
        readIndex := |payload|;
      } else {
        readIndex := readIndex + aligned;
      }
      r := Slice(bytes, readIndex);
    }

    /** ReadBuiltinType for the integers. */
    method ReadNumber(size: nat, signed: bool) returns (r: Number)
      requires Valid()
      modifies this
      ensures Valid() && r == ReadInt(payload, old(readIndex), size, signed) && readIndex == r.next
    {
      var s := GetAndAdvance(size);
      r := match s
        case NoSlice(next) => NoNumber(next)
        case Slice(bytes, next) => Number(if signed then ToSigned(FromLE(bytes), size) else FromLE(bytes), next);
    }

    /** ReadString, ReadStringPiece and ReadData. */
    method ReadText() returns (r: Slice)
      requires Valid()
      modifies this
      ensures Valid() && r == ReadSized(payload, old(readIndex)) && readIndex == r.next
    {
      var length := ReadNumber(4, true);
      match length
      case NoNumber(next) => r := NoSlice(next);
      case Number(n, _) => r := GetAndAdvance(n);
    }

    /** The typed reads. */
    method ReadValue(k: Kind) returns (r: Reading)
      requires Valid()
      modifies this
      ensures Valid() && r == Read(k, payload, old(readIndex)) && readIndex == r.next
    {
      match k
      case KInt(t) =>
        var n := ReadNumber(t.Width(), t.Signed());
        r := AsInt(t, n);
      case KText =>
        var s := ReadText();
        r := AsBlob(k, s);
      case KBool =>
        var s := GetAndAdvance(1);
        r := AsBlob(k, s);
      case KFloat(double) =>
        var s := GetAndAdvance(FloatWidth(double));
        r := AsBlob(k, s);
      case KRaw(n) =>
        var s := GetAndAdvance(n);
        r := AsBlob(k, s);
    }

    /** Reads until the first failure. */
    method ReadSequence(ks: seq<Kind>) returns (rs: Readings)
      requires Valid()
      modifies this
      ensures Valid() && rs == ReadAll(ks, payload, old(readIndex)) && readIndex == rs.next
    {
      hide Read;
      var values := [];
      for i := 0 to |ks|
        invariant Valid()
        invariant ReadAll(ks, payload, old(readIndex)) == InFront(values, ReadAll(ks[i..], payload, readIndex))
      {
        ghost var here := readIndex;
        var r := ReadValue(ks[i]);
        assert ks[i..][1..] == ks[i + 1..];
        if r.Failed? {
          return SomeFailed(readIndex);
        }
        InFrontAppend(values, r.value, ReadAll(ks[i + 1..], payload, readIndex));
        values := values + [r.value];
      }
      rs := AllGot(values, readIndex);
      assert values + [] == values;
    }
  }

  function InFront(vs: seq<Value>, rs: Readings): Readings {
    match rs
    case AllGot(ws, next) => AllGot(vs + ws, next)
    case SomeFailed(next) => rs
  }

  lemma InFrontAppend(vs: seq<Value>, v: Value, rs: Readings)
    ensures InFront(vs, InFront([v], rs)) == InFront(vs + [v], rs)
  {
    if rs.AllGot? {
      assert vs + ([v] + rs.values) == vs + [v] + rs.values;
    }
  }

  // ----- The size predictor -------------------------------------------------------------------------

  class PickleSizer {
    var payloadSize: nat

    constructor ()
      ensures payloadSize == 0
    {
      payloadSize := 0;
    }

    method AddBytes(length: nat)
      modifies this
      ensures payloadSize == old(payloadSize) + Align(length, 4)
    {
      payloadSize := payloadSize + Align(length, 4);
    }

    /** AddBool, AddInt16 to AddUInt64, AddFloat, AddDouble, AddString, AddData and AddBytes. */
    method Add(v: Value)
      requires Fits(v)
      modifies this
      ensures payloadSize == old(payloadSize) + |Encode(v)|
    {
      match v
      case Bool(_) => AddBytes(4);
      case Int(t, _) => AddBytes(t.Width());
      case Float(double, _) => AddBytes(FloatWidth(double));
      case Text(bytes) =>
        AddBytes(4);
        AddBytes(|bytes|);
      case Raw(bytes) => AddBytes(|bytes|);
    }

    /** The predictor is exact: the sizes it adds up are the payload the same writes produce. */
    method AddAll(vs: seq<Value>)
      requires forall i :: 0 <= i < |vs| ==> Fits(vs[i])
      modifies this
      ensures payloadSize == old(payloadSize) + |EncodeAll(vs)|
    {
      for i := 0 to |vs|
        invariant payloadSize == old(payloadSize) + |EncodeAll(vs[..i])|
      {
        EncodePrefix(vs, i);
        Add(vs[i]);
      }
      assert vs[..|vs|] == vs;
    }
  }

  // ----- Writer, reader and predictor together ------------------------------------------------------

  /** What is written into a new pickle is read back from it, the next fixed-size read fails, and the predictor
      gives the size of the payload. */
  method WriteAndRead(header: nat, vs: seq<Value>, next: Kind)
      returns (read: Readings, beyond: Reading, written: nat, predicted: nat)
    requires 4 <= header <= PAYLOAD_UNIT && (forall i :: 0 <= i < |vs| ==> Fits(vs[i])) && FixedSize(next)
    requires |EncodeAll(vs)| <= UINT32_MAX
    ensures read == AllGot(vs, written) && beyond == Failed(written) && predicted == written
  {
    hide Encode, EncodeAll, Fits, ReadAll, Read, Amortised, ToLE, Align;
    var pickle := new Pickle(header);
    pickle.WriteAll(vs);
    written := pickle.writeOffset;
    ghost var payload := pickle.Payload();
    assert payload == EncodeAll(vs);
    var reader := new PickleIterator(pickle.buffer[pickle.headerSize..pickle.headerSize + pickle.writeOffset]);
    RoundTrip(vs, next);
    read := reader.ReadSequence(Kinds(vs));
    beyond := reader.ReadValue(next);
    var sizer := new PickleSizer();
    sizer.AddAll(vs);
    predicted := sizer.payloadSize;
  }
}
