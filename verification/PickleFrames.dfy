/** Pickles in foreign bytes: the read-only view, and finding pickles in a stream. */
module PickleFrames {
  import opened PickleFormat
  import Pickle

  const TWO_32: int := 0x1_0000_0000
  const SIZE_MAX: nat := 0xFFFF_FFFF_FFFF_FFFF

  /** header_->payload_size, at the start of the bytes. */
  function PayloadSize(data: Bytes): (n: nat)
    requires |data| >= 4
    ensures n < TWO_32
  {
    Powers();
    ToFromLE(data[..4]);
    FromLE(data[..4])
  }

  // ----- The read-only view -------------------------------------------------------------------------

  /** header_size_ of Pickle(data, data_len): an unsigned 32-bit difference, thrown away if it cannot be right. */
  function ViewHeaderSize(data: Bytes): nat
    requires |data| <= INT32_MAX
  {
    var wrapped := if |data| >= 4 then (|data| - PayloadSize(data)) % TWO_32 else 0;
    var bounded := if wrapped > |data| then 0 else wrapped;
    if bounded != Align(bounded, 4) then 0 else bounded
  }

  /** What PickleIterator sees of the view: nothing when the header was refused. */
  function ViewPayload(data: Bytes): (r: Bytes)
    requires |data| <= INT32_MAX
  {
    var header := ViewHeaderSize(data);
    ViewIsExact(data);
    if header == 0 then [] else data[header..header + PayloadSize(data)]
  }

  /** The view is empty, or header and payload make up the buffer exactly; and it is not empty exactly when the
      stored size is smaller than the buffer by a multiple of four bytes. */
  lemma ViewIsExact(data: Bytes)
    requires |data| <= INT32_MAX
    ensures ViewHeaderSize(data) != 0 ==>
              |data| >= 4 && ViewHeaderSize(data) >= 4 && ViewHeaderSize(data) + PayloadSize(data) == |data|
    ensures ViewHeaderSize(data) != 0 <==> |data| >= 4 && PayloadSize(data) < |data| && (|data| - PayloadSize(data)) % 4 == 0
  {
    if |data| >= 4 {
      var difference := |data| - PayloadSize(data);
      if difference < 0 {
        assert difference % TWO_32 == difference + TWO_32 by { WrapNegative(difference); }
      }
    }
  }

  lemma WrapNegative(d: int)
    requires -TWO_32 < d < 0
    ensures d % TWO_32 == d + TWO_32
  {
    assert (d + TWO_32) % TWO_32 == d + TWO_32;
  }

  /** Whatever a reader takes from a view, its bytes lie inside the payload of the foreign buffer. */
  lemma ReadsStayInside(data: Bytes, index: nat, size: int)
    requires |data| <= INT32_MAX && index <= |ViewPayload(data)|
    ensures var r := Take(ViewPayload(data), index, size);
      r.Slice? ==>
        && 0 <= size
        && ViewHeaderSize(data) + index + size <= |data|
        && r.bytes == data[ViewHeaderSize(data) + index..ViewHeaderSize(data) + index + size]
  {
    ViewIsExact(data);
  }

  // ----- Framing ------------------------------------------------------------------------------------

  datatype Found = Found(offset: nat) | NotFound

  predicate HeaderOk(header: nat) {
    4 <= header <= 64 && header == Align(header, 4)
  }

  /** PeekNext: the size the next pickle claims to have. */
  function PeekNext(header: nat, data: Bytes): Found
    requires HeaderOk(header)
  {
    if |data| < 4 || |data| < header then NotFound
    else if PayloadSize(data) > SIZE_MAX - header then Found(SIZE_MAX)
    else Found(header + PayloadSize(data))
  }

  /** FindNext: where the pickle after the first one starts, if the first one is all there. */
  function FindNext(header: nat, data: Bytes): (r: Found)
    requires HeaderOk(header)
    ensures r.Found? ==> header <= r.offset <= |data|
  {
    var peek := PeekNext(header, data);
    if peek.NotFound? || peek.offset > |data| then NotFound else peek
  }

  /** The bytes of one pickle with a header of this size. */
  predicate IsFrame(header: nat, frame: Bytes) {
    HeaderOk(header) && |frame| >= header && header + PayloadSize(frame) == |frame|
  }

  /** The bytes a valid pickle hands out are a frame, with its payload behind the header. */
  lemma ImageIsFrame(p: Pickle.Pickle)
    requires p.Valid()
    ensures IsFrame(p.headerSize, p.Image())
    ensures p.Image()[p.headerSize..] == p.Payload()
  {
    Powers();
    FromToLE(p.writeOffset, 4);
    assert p.Image()[..4] == p.buffer[..4];
  }

  /** A pickle's bytes viewed read-only give its header size and payload back. */
  lemma ViewOfImage(header: nat, frame: Bytes)
    requires IsFrame(header, frame) && |frame| <= INT32_MAX
    ensures ViewHeaderSize(frame) == header && ViewPayload(frame) == frame[header..]
  {
    ViewIsExact(frame);
    assert (|frame| - PayloadSize(frame)) % TWO_32 == header;
  }

  lemma FindsFrame(header: nat, frame: Bytes, rest: Bytes)
    requires IsFrame(header, frame)
    ensures FindNext(header, frame + rest) == Found(|frame|)
  {
    assert (frame + rest)[..4] == frame[..4];
  }

  /** No strict prefix of a pickle is taken for one. */
  lemma RefusesPrefix(header: nat, frame: Bytes, n: nat)
    requires IsFrame(header, frame) && n < |frame|
    ensures FindNext(header, frame[..n]) == NotFound
  {
    if n >= 4 {
      assert frame[..n][..4] == frame[..4];
    }
  }

  /** Repeated FindNext: the pickles in front and the bytes left over. */
  function Split(header: nat, data: Bytes): (r: (seq<Bytes>, Bytes))
    requires HeaderOk(header)
    decreases |data|
  {
    match FindNext(header, data)
    case NotFound => ([], data)
    case Found(n) =>
      var rest := Split(header, data[n..]);
      ([data[..n]] + rest.0, rest.1)
  }

  function Join(frames: seq<Bytes>): Bytes {
    if frames == [] then [] else frames[0] + Join(frames[1..])
  }

  /** Over pickles laid end to end with one header size, followed by a pickle cut short, repeated FindNext
      recovers every boundary and stops at the cut. */
  lemma {:induction false} SplitRecovers(header: nat, frames: seq<Bytes>, last: Bytes, n: nat)
    requires forall i :: 0 <= i < |frames| ==> IsFrame(header, frames[i])
    requires IsFrame(header, last) && n < |last|
    ensures Split(header, Join(frames) + last[..n]) == (frames, last[..n])
    decreases |frames|
  {
    var tail := last[..n];
    if frames == [] {
      assert Join(frames) + tail == tail;
      RefusesPrefix(header, last, n);
    } else {
      hide IsFrame, FindNext;
      var first, rest := frames[0], Join(frames[1..]) + tail;
      FindsFrame(header, first, rest);
      SplitRecovers(header, frames[1..], last, n);
      JoinStep(frames, tail);
      SplitStep(header, first, rest);
      assert [first] + frames[1..] == frames;
    }
  }

  lemma JoinStep(frames: seq<Bytes>, tail: Bytes)
    requires frames != []
    ensures Join(frames) + tail == frames[0] + (Join(frames[1..]) + tail)
  {
  }

  lemma SplitStep(header: nat, first: Bytes, rest: Bytes)
    requires HeaderOk(header) && FindNext(header, first + rest) == Found(|first|)
    ensures Split(header, first + rest) == ([first] + Split(header, rest).0, Split(header, rest).1)
  {
    hide FindNext;
    assert (first + rest)[..|first|] == first && (first + rest)[|first|..] == rest;
  }
}
