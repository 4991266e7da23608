/** Packing and unpacking of CAN frames on panda's byte buffers. */
module PandaCan {
  import opened CanWire

  const TX_SOFT_LIMIT := 0x100
  const RECV_SIZE := 0x4000
  const RECEIVE_CAPACITY := RECV_SIZE + HEADER_SIZE + MAX_DATA

  /** A message to send: cereal's CanData. */
  datatype CanData = CanData(address: bv32, src: bv8, dat: Bytes) {
    predicate ForPanda() { src < PANDA_BUSES }
  }

  /** The frame built for a message; the address field keeps 29 bits. */
  function WireOf(c: CanData): WireFrame
    requires |c.dat| <= MAX_DATA
  {
    WireFrame(Header(c.src, LenToDlc(|c.dat|) as bv8, false, false, c.address >= 0x800, c.address & ADDRESS_MASK), c.dat)
  }

  /** The lengths the source asserts. */
  predicate Sendable(list: seq<CanData>) {
    forall c | c in list && c.ForPanda() :: LegalLength(|c.dat|)
  }

  function Wires(list: seq<CanData>): seq<WireFrame>
    requires Sendable(list)
  {
    if list == [] then []
    else
      var k := |list| - 1;
      Wires(list[..k]) + if list[k].ForPanda() then [WireOf(list[k])] else []
  }

  lemma WireOfIsLegal(c: CanData)
    requires c.ForPanda() && LegalLength(|c.dat|)
    ensures WireOf(c).Legal()
    ensures |EncodeFrame(WireOf(c))| == HEADER_SIZE + |c.dat|
    ensures Deliver(WireOf(c)) == Received(c.address & ADDRESS_MASK, c.src as bv32, c.dat)
  {
    DlcRoundTrip(|c.dat|);
    BusAndAddressFit(c.src, c.address);
  }

  lemma BusAndAddressFit(src: bv8, address: bv32)
    ensures src < PANDA_BUSES ==> src < 8
    ensures address & ADDRESS_MASK <= ADDRESS_MASK
  {
  }

  /** What the receiver should see: the messages for this panda, addresses cut to 29 bits. */
  function Expected(list: seq<CanData>): seq<Received> {
    if list == [] then []
    else
      var k := |list| - 1;
      var c := list[k];
      Expected(list[..k]) + if c.ForPanda() then [Received(c.address & ADDRESS_MASK, c.src as bv32, c.dat)] else []
  }

  lemma {:induction false} DeliverAllSnoc(a: seq<WireFrame>, f: WireFrame)
    ensures DeliverAll(a + [f]) == DeliverAll(a) + [Deliver(f)]
    decreases |a|
  {
    hide Deliver;
    if a != [] {
      assert (a + [f])[1..] == a[1..] + [f];
      DeliverAllSnoc(a[1..], f);
    }
  }

  lemma {:induction false} EncodeAppend(a: seq<WireFrame>, b: seq<WireFrame>)
    ensures Encode(a + b) == Encode(a) + Encode(b)
    decreases |a|
  {
    hide EncodeFrame;
    if a == [] {
      assert a + b == b;
    } else {
      assert (a + b)[1..] == a[1..] + b;
      EncodeAppend(a[1..], b);
    }
  }

  lemma {:induction false} WiresAreLegal(list: seq<CanData>)
    requires Sendable(list)
    ensures forall f | f in Wires(list) :: f.Legal()
    ensures DeliverAll(Wires(list)) == Expected(list)
    decreases |list|
  {
    hide Deliver, WireOf, WireFrame.Legal, DeliverAll;
    if list == [] {
      assert DeliverAll([]) == [] by { NothingDelivered(); }
    } else {
      var k := |list| - 1;
      WiresAreLegal(list[..k]);
      if list[k].ForPanda() {
        WireOfIsLegal(list[k]);
        DeliverAllSnoc(Wires(list[..k]), WireOf(list[k]));
      } else {
        assert Wires(list) == Wires(list[..k]) && Expected(list) == Expected(list[..k]);
      }
    }
  }

  lemma NothingDelivered()
    ensures DeliverAll([]) == []
  {
  }

  /** Send, cut the bytes anywhere, receive piece by piece: the same messages come back, in order. */
  lemma SendThenReceive(list: seq<CanData>, writes: seq<Bytes>, pieces: seq<Bytes>)
    requires Sendable(list)
    requires Concat(writes) == Encode(Wires(list))
    requires Concat(pieces) == Concat(writes)
    ensures Feed([], pieces) == Parsed(Expected(list), [], true)
  {
    WiresAreLegal(list);
    StreamRoundTrip(Wires(list), pieces);
  }

  /** The messages for this panda. */
  function Addressed(list: seq<CanData>): seq<CanData> {
    if list == [] then []
    else
      var k := |list| - 1;
      Addressed(list[..k]) + if list[k].src < 4 then [list[k]] else []
  }

  /** The header and data a message goes out with. */
  predicate Carries(f: WireFrame, c: CanData) {
    && f.data == c.dat && f.header.bus == c.src
    && !f.header.rejected && !f.header.returned && (f.header.extended <==> 0x800 <= c.address)
    && f.header.addr == c.address & 0x1fffffff
    && f.header.dlc < 16 && DlcToLen(f.header.dlc) == |c.dat|
  }

  predicate AllCarry(fs: seq<WireFrame>, cs: seq<CanData>) {
    |fs| == |cs| && forall k | 0 <= k < |fs| :: Carries(fs[k], cs[k])
  }

  lemma {:induction false} WiresCarry(list: seq<CanData>)
    requires Sendable(list)
    ensures AllCarry(Wires(list), Addressed(list))
    decreases |list|
  {
    if list != [] {
      var k := |list| - 1;
      assert Sendable(list[..k]) by {
        assert forall c | c in list[..k] :: c in list;
      }
      WiresCarry(list[..k]);
      if list[k].ForPanda() {
        assert list[k] in list;
        WireCarries(list[k]);
        OneMoreCarries(Wires(list[..k]), Addressed(list[..k]), WireOf(list[k]), list[k]);
      }
      hide Carries, WireOf, AllCarry;
    }
  }

  lemma OneMoreCarries(fs: seq<WireFrame>, cs: seq<CanData>, f: WireFrame, c: CanData)
    requires AllCarry(fs, cs) && Carries(f, c)
    ensures AllCarry(fs + [f], cs + [c]) && fs + [] == fs && cs + [] == cs
  {
    hide Carries;
  }

  lemma WireCarries(c: CanData)
    requires c.ForPanda() && LegalLength(|c.dat|)
    ensures Carries(WireOf(c), c)
  {
    DlcRoundTrip(|c.dat|);
    hide LenToDlc, DlcToLen, LegalLength;
  }

  /** Read back from the bytes written, however they are cut, are the messages for this panda in order, each with a
      header that says standard or extended, its bus, its length and 29 bits of its address. */
  lemma WrittenBytesCarry(list: seq<CanData>, writes: seq<Bytes>)
    requires Sendable(list) && Concat(writes) == Encode(Wires(list))
    ensures AllCarry(FramesIn(Concat(writes)), Addressed(list))
  {
    WiresAreLegal(list);
    EncodedFramesAreThere(Wires(list));
    WiresCarry(list);
    hide Wires, Encode, Concat, AllCarry, Addressed;
  }

  /** A message survives exactly when its address has 29 bits. */
  lemma AddressSurvives(address: bv32)
    ensures address & ADDRESS_MASK == address <==> address < 0x20000000
  {
  }

  // ----- the buffers

  method CalculateChecksum(data: array<bv8>, from: nat, len: nat) returns (checksum: bv8)
    requires from + len <= data.Length
    ensures checksum == Xor(data[from..from + len])
  {
    checksum := 0;
    for i := 0 to len
      invariant checksum == Xor(data[from..from + i])
    {
      checksum := checksum ^ data[from + i];
      assert data[from..from + i + 1][..i] == data[from..from + i];
    }
  }

  method CopyTo(buf: array<bv8>, pos: nat, src: Bytes)
    requires pos + |src| <= buf.Length
    modifies buf
    ensures buf[pos..pos + |src|] == src
    ensures buf[..pos] == old(buf[..pos]) && buf[pos + |src|..] == old(buf[pos + |src|..])
  {
    forall i | 0 <= i < |src| {
      buf[pos + i] := src[i];
    }
  }

  /** Writes one frame at `pos`: header with a zero checksum and data, then the checksum over both. */
  method WriteFrame(buf: array<bv8>, pos: nat, c: CanData) returns (size: nat)
    requires c.ForPanda() && LegalLength(|c.dat|)
    requires pos + HEADER_SIZE + |c.dat| <= buf.Length
    modifies buf
    ensures size == HEADER_SIZE + |c.dat|
    ensures buf[..pos] == old(buf[..pos])
    ensures buf[pos..pos + size] == EncodeFrame(WireOf(c))
  {
    hide LegalLength, CanData.ForPanda, Unchecked, EncodeFrame, WireOf, Xor;
    LegalFits(c);
    FrameBytes(c);
    var bytes := Unchecked(c);
    size := HEADER_SIZE + |c.dat|;
    CopyTo(buf, pos, bytes);
    ghost var before := buf[..];
    var checksum := CalculateChecksum(buf, pos, size);
    buf[pos + HEADER_SIZE - 1] := checksum;
    OneByteSet(before, buf[..], pos, size, HEADER_SIZE - 1, checksum);
  }

  lemma LegalFits(c: CanData)
    requires LegalLength(|c.dat|)
    ensures |c.dat| <= MAX_DATA
  {
  }

  lemma OneByteSet(before: Bytes, after: Bytes, pos: nat, size: nat, k: nat, v: bv8)
    requires k < size && pos + size <= |before| && after == before[pos + k := v]
    ensures after[pos..pos + size] == before[pos..pos + size][k := v] && after[..pos] == before[..pos]
  {
  }

  /** Header and data before the checksum is put in. */
  function Unchecked(c: CanData): (b: Bytes)
    requires |c.dat| <= MAX_DATA
    ensures |b| == HEADER_SIZE + |c.dat|
  {
    HeaderBytes(WireOf(c).header) + [0] + c.dat
  }

  lemma FrameBytes(c: CanData)
    requires |c.dat| <= MAX_DATA
    ensures EncodeFrame(WireOf(c)) == Unchecked(c)[HEADER_SIZE - 1 := Xor(Unchecked(c))]
  {
    WireData(c);
    ZeroByteDoesNotCount(HeaderBytes(WireOf(c).header), c.dat);
    hide WireOf, HeaderBytes, Xor;
  }

  lemma WireData(c: CanData)
    requires |c.dat| <= MAX_DATA
    ensures WireOf(c).data == c.dat
  {
  }

  lemma ZeroByteDoesNotCount(h: Bytes, d: Bytes)
    ensures Xor(h + [0] + d) == Xor(h + d)
  {
    XorAppend(h + [0], d);
    XorAppend(h, d);
    assert (h + [0])[..|h|] == h;
  }

  lemma EncodeSnoc(fs: seq<WireFrame>, f: WireFrame)
    ensures Encode(fs + [f]) == Encode(fs) + EncodeFrame(f)
  {
    hide EncodeFrame;
    EncodeAppend(fs, [f]);
    assert Encode([f]) == EncodeFrame(f) + Encode([]);
  }

  lemma EncodeMore(written: Bytes, group: seq<WireFrame>, wires: seq<WireFrame>, f: WireFrame)
    requires written + Encode(group) == Encode(wires)
    ensures Encode(group + [f]) == Encode(group) + EncodeFrame(f)
    ensures written + Encode(group + [f]) == Encode(wires + [f])
  {
    hide EncodeFrame, Encode;
    EncodeSnoc(group, f);
    EncodeSnoc(wires, f);
    assert written + (Encode(group) + EncodeFrame(f)) == (written + Encode(group)) + EncodeFrame(f);
  }

  function Flatten(groups: seq<seq<WireFrame>>): seq<WireFrame> {
    if groups == [] then [] else Flatten(groups[..|groups| - 1]) + groups[|groups| - 1]
  }

  lemma FlattenSnoc(groups: seq<seq<WireFrame>>, group: seq<WireFrame>)
    ensures Flatten(groups + [group]) == Flatten(groups) + group
  {
    assert (groups + [group])[..|groups|] == groups;
  }

  lemma WiresSnoc(list: seq<CanData>, k: nat)
    requires k < |list| && Sendable(list)
    ensures Wires(list[..k + 1]) == Wires(list[..k]) + if list[k].ForPanda() then [WireOf(list[k])] else []
  {
    assert list[..k + 1][..k] == list[..k];
  }

  /** Every write holds whole frames of the list, all of them in order and none divided between two writes; only
      the last write may be below the soft limit. */
  method PackCanBuffer(list: seq<CanData>) returns (writes: seq<Bytes>, ghost groups: seq<seq<WireFrame>>)
    requires Sendable(list)
    ensures Concat(writes) == Encode(Wires(list))
    ensures |groups| == |writes| && forall k | 0 <= k < |writes| :: writes[k] == Encode(groups[k])
    ensures Flatten(groups) == Wires(list)
    ensures forall k | 0 <= k < |writes| :: 0 < |writes[k]| < TX_SOFT_LIMIT + HEADER_SIZE + MAX_DATA
    ensures forall k | 0 <= k < |writes| - 1 :: TX_SOFT_LIMIT <= |writes[k]|
  {
    hide WireOf, EncodeFrame, Encode, Concat, Flatten, Wires;
    FlattenNothing();
    EncodeNothing();
    NoPieces();
    var pos := 0;
    var sendBuf := new bv8[2 * TX_SOFT_LIMIT];
    writes, groups := [], [];
    ghost var group: seq<WireFrame> := [];
    for k := 0 to |list|
      invariant 0 <= pos < TX_SOFT_LIMIT && fresh(sendBuf)
      invariant sendBuf[..pos] == Encode(group) && (pos == 0 ==> group == [])
      invariant Flatten(groups) + group == Wires(list[..k])
      invariant Concat(writes) + Encode(group) == Encode(Wires(list[..k]))
      invariant |groups| == |writes| && forall j | 0 <= j < |writes| :: writes[j] == Encode(groups[j])
      invariant forall j | 0 <= j < |writes| :: TX_SOFT_LIMIT <= |writes[j]| < TX_SOFT_LIMIT + HEADER_SIZE + MAX_DATA
    {
      WiresSnoc(list, k);
      if !list[k].ForPanda() {
        continue;
      }
      var frame := WireOf(list[k]);
      var size := WriteFrame(sendBuf, pos, list[k]);
      EncodeMore(Concat(writes), group, Wires(list[..k]), frame);
      group := group + [frame];
      assert sendBuf[..pos + size] == sendBuf[..pos] + sendBuf[pos..pos + size];
      pos := pos + size;
      if pos >= TX_SOFT_LIMIT {
        ConcatSnoc(writes, sendBuf[..pos]);
        FlattenSnoc(groups, group);
        writes, groups := writes + [sendBuf[..pos]], groups + [group];
        pos, group := 0, [];
      }
    }
    assert list[..|list|] == list;
    if pos > 0 {
      ConcatSnoc(writes, sendBuf[..pos]);
      FlattenSnoc(groups, group);
      writes, groups := writes + [sendBuf[..pos]], groups + [group];
    }
  }

  lemma FlattenNothing()
    ensures Flatten([]) == [] && Wires([]) == []
  {
  }

  lemma EncodeNothing()
    ensures Encode([]) == []
  {
  }

  /** The reply of the bulk endpoint. */
  datatype Reply = Reply(bytes: Bytes, healthy: bool)

  lemma StartRemaining(all: Bytes)
    ensures Remaining(all, [], all[0..])
  {
    assert all[0..] == all;
    assert [] + Parse(all).frames == Parse(all).frames;
  }

  lemma ShortIsIncomplete(b: Bytes)
    ensures |b| < HEADER_SIZE ==> !Complete(b)
  {
  }

  /** The frame at `pos`, in the buffer and in the bytes still to be read. */
  lemma FrameAt(buf: Bytes, size: nat, pos: nat)
    requires pos <= size <= |buf|
    ensures pos + HEADER_SIZE <= |buf| ==>
      var b := buf[..size][pos..]; var header := buf[pos..pos + HEADER_SIZE]; var n := HEADER_SIZE + DlcToLen(Dlc(header[0]));
      if pos + n > size then !Complete(b)
      else
        && Complete(b) && FrameSize(b) == n && header == b[..HEADER_SIZE] && buf[pos..pos + n] == b[..n]
        && buf[pos + HEADER_SIZE..pos + n] == b[HEADER_SIZE..n] && b[n..] == buf[..size][pos + n..]
  {
    if pos + HEADER_SIZE <= size {
      assert buf[pos] == buf[..size][pos..][0] == buf[pos..pos + HEADER_SIZE][0];
    }
    hide DlcToLen, Dlc;
  }

  /** What reading at `pos` comes to. */
  lemma ReadAt(buf: Bytes, size: nat, pos: nat, all: Bytes, out: seq<Received>)
    requires pos <= size <= |buf| && all == buf[..size] && Remaining(all, out, all[pos..])
    ensures pos + HEADER_SIZE <= |buf| ==>
      var header := buf[pos..pos + HEADER_SIZE]; var n := HEADER_SIZE + DlcToLen(Dlc(header[0]));
      if pos + n > size then Parse(all) == Parsed(out, all[pos..], true)
      else if Xor(buf[pos..pos + n]) != 0 then Parse(all) == Parsed(out, [], false)
      else Remaining(all, out + [Deliver(WireFrame(ParseHeader(header), buf[pos + HEADER_SIZE..pos + n]))], all[pos + n..])
    ensures size - pos < HEADER_SIZE ==> Parse(all) == Parsed(out, all[pos..], true)
  {
    FrameAt(buf, size, pos);
    ShortIsIncomplete(all[pos..]);
    hide Parse, Remaining, ParseHeader, Deliver, DlcToLen, Dlc, Xor, FrameSize, Complete;
    if pos + HEADER_SIZE <= |buf| {
      var header := buf[pos..pos + HEADER_SIZE];
      var n := HEADER_SIZE + DlcToLen(Dlc(header[0]));
      if pos + n <= size {
        ReadWhole(all, out, all[pos..], header, buf[pos + HEADER_SIZE..pos + n]);
      } else {
        NextFrame(all, out, all[pos..]);
      }
    }
    if size - pos < HEADER_SIZE {
      NextFrame(all, out, all[pos..]);
    }
  }

  lemma ReadWhole(all: Bytes, out: seq<Received>, b: Bytes, header: Bytes, data: Bytes)
    requires Remaining(all, out, b) && Complete(b) && header == b[..HEADER_SIZE] && data == b[HEADER_SIZE..FrameSize(b)]
    ensures if Xor(b[..FrameSize(b)]) != 0 then Parse(all) == Parsed(out, [], false)
            else Remaining(all, out + [Deliver(WireFrame(ParseHeader(header), data))], b[FrameSize(b)..])
  {
    NextFrame(all, out, b);
    FrameFromParts(header, data, b);
    hide Parse, Remaining, FirstFrame, ParseHeader, Deliver, Xor, FrameSize, Complete;
  }

  class Panda {
    const receiveBuffer: array<bv8>
    var receiveBufferSize: nat

    /** The bytes carried over between receives. */
    function Carried(): Bytes
      requires receiveBufferSize <= receiveBuffer.Length
      reads this, receiveBuffer
    {
      receiveBuffer[..receiveBufferSize]
    }

    /** Less than a frame is carried, so a full read always fits. */
    predicate Valid()
      reads this, receiveBuffer
    {
      && receiveBuffer.Length == RECEIVE_CAPACITY && receiveBufferSize < HEADER_SIZE + MAX_DATA
      && !Complete(Carried())
    }

    constructor ()
      ensures Valid() && Carried() == [] && fresh(receiveBuffer)
    {
      receiveBuffer := new bv8[RECEIVE_CAPACITY];
      receiveBufferSize := 0;
    }

    /** `pos <= size - 6` wraps when fewer than six bytes are there; the guard says so, and the length
        check makes it harmless. */
    method UnpackCanBuffer(size: nat) returns (newSize: nat, out: seq<Received>, ok: bool)
      requires HEADER_SIZE <= receiveBuffer.Length && size <= receiveBuffer.Length
      modifies receiveBuffer
      ensures var p := Parse(old(receiveBuffer[..size]));
        && out == p.frames && ok == p.ok && newSize == |p.rest| <= size
        && receiveBuffer[..newSize] == p.rest
    {
      hide Parse, Remaining, FirstFrame, ParseHeader, Deliver, DlcToLen, Dlc, Xor, FrameSize, Complete;
      ghost var all := receiveBuffer[..size];
      var pos := 0;
      out, ok := [], true;
      StartRemaining(all);
      while size < HEADER_SIZE || pos <= size - HEADER_SIZE
        invariant 0 <= pos <= size && (size < HEADER_SIZE ==> pos == 0)
        invariant receiveBuffer[..size] == all && ok
        invariant Remaining(all, out, all[pos..])
        decreases size - pos
      {
        ReadAt(receiveBuffer[..], size, pos, all, out);
        var header := receiveBuffer[pos..pos + HEADER_SIZE];
        var frameSize := HEADER_SIZE + DlcToLen(Dlc(header[0]));
        if pos + frameSize > size {
          break;
        }
        var checksum := CalculateChecksum(receiveBuffer, pos, frameSize);
        if checksum != 0 {
          return 0, out, false;
        }
        var data := receiveBuffer[pos + HEADER_SIZE..pos + frameSize];
        out := out + [Deliver(WireFrame(ParseHeader(header), data))];
        pos := pos + frameSize;
      }
      ReadAt(receiveBuffer[..], size, pos, all, out);
      MoveToFront(pos, size);
      newSize := size - pos;
    }

    method MoveToFront(pos: nat, size: nat)
      requires pos <= size <= receiveBuffer.Length
      modifies receiveBuffer
      ensures receiveBuffer[..size - pos] == old(receiveBuffer[..size][pos..])
    {
      forall i | 0 <= i < size - pos {
        receiveBuffer[i] := receiveBuffer[pos + i];
      }
    }

    /** One receive is one step of the stream decoder, and the capacity assert never fires. */
    method CanReceive(reply: Reply, outBefore: seq<Received>) returns (ok: bool, out: seq<Received>)
      requires Valid() && |reply.bytes| <= RECV_SIZE
      modifies this`receiveBufferSize, receiveBuffer
      ensures Valid()
      ensures !reply.healthy ==> !ok && out == outBefore && Carried() == old(Carried())
      ensures reply.healthy ==>
        var p := Parse(old(Carried()) + reply.bytes);
        (reply.bytes == [] ==> ok && out == outBefore && Carried() == old(Carried())) &&
        (reply.bytes != [] ==> ok == p.ok && out == outBefore + p.frames && Carried() == p.rest)
    {
      hide Parse;
      assert receiveBufferSize + RECV_SIZE <= receiveBuffer.Length;
      out := outBefore;
      ghost var carried := Carried();
      var n := |reply.bytes|;
      forall i | 0 <= i < n {
        receiveBuffer[receiveBufferSize + i] := reply.bytes[i];
      }
      assert receiveBuffer[..receiveBufferSize] == carried;
      if !reply.healthy {
        return false, out;
      }
      ok := true;
      if n > 0 {
        assert receiveBuffer[..receiveBufferSize + n] == carried + reply.bytes;
        RestIsShort(carried + reply.bytes);
        receiveBufferSize := receiveBufferSize + n;
        var size, frames, good := UnpackCanBuffer(receiveBufferSize);
        receiveBufferSize := size;
        ok, out := good, out + frames;
      }
    }

    /** Receives in a row are the stream decoder on what the healthy ones delivered. */
    method ReceiveAll(replies: seq<Reply>) returns (ok: bool, out: seq<Received>)
      requires Valid() && forall r | r in replies :: |r.bytes| <= RECV_SIZE
      modifies this`receiveBufferSize, receiveBuffer
      ensures Valid()
      ensures var f := Feed(old(Carried()), Delivered(replies));
        out == f.frames && Carried() == f.rest && (ok <==> f.ok && forall r | r in replies :: r.healthy)
    {
      hide Parse, Feed, Delivered, Complete;
      ok, out := true, [];
      NothingDeliveredYet(Carried());
      for k := 0 to |replies|
        invariant Valid()
        invariant var f := Feed(old(Carried()), Delivered(replies[..k]));
          out == f.frames && Carried() == f.rest && (ok <==> f.ok && forall r | r in replies[..k] :: r.healthy)
      {
        assert replies[..k + 1] == replies[..k] + [replies[k]];
        DeliveredSnoc(replies, k);
        FeedSnoc(old(Carried()), Delivered(replies[..k]), replies[k].bytes);
        NothingNew(Carried());
        ghost var carried, delivered := Carried(), Delivered(replies[..k]);
        assert delivered + [] == delivered;
        assert replies[k].bytes == [] ==> carried + replies[k].bytes == carried + [];
        var good, all := CanReceive(replies[k], out);
        ok, out := ok && good, all;
      }
      assert replies[..|replies|] == replies;
    }
  }

  function Delivered(replies: seq<Reply>): seq<Bytes> {
    if replies == [] then []
    else
      var k := |replies| - 1;
      Delivered(replies[..k]) + if replies[k].healthy then [replies[k].bytes] else []
  }

  lemma DeliveredSnoc(replies: seq<Reply>, k: nat)
    requires k < |replies|
    ensures Delivered(replies[..k + 1]) == Delivered(replies[..k]) + if replies[k].healthy then [replies[k].bytes] else []
  {
    assert replies[..k + 1][..k] == replies[..k];
  }

  lemma NothingDeliveredYet(rest: Bytes)
    ensures Delivered([]) == [] && Feed(rest, []) == Parsed([], rest, true)
  {
  }

  lemma NothingNew(rest: Bytes)
    requires !Complete(rest)
    ensures Parse(rest + []) == Parsed([], rest, true)
  {
    assert rest + [] == rest;
  }

  lemma {:induction false} FeedSnoc(rest: Bytes, pieces: seq<Bytes>, last: Bytes)
    ensures var f := Feed(rest, pieces); var p := Parse(f.rest + last);
      Feed(rest, pieces + [last]) == Parsed(f.frames + p.frames, p.rest, f.ok && p.ok)
    decreases |pieces|
  {
    hide Parse;
    if pieces == [] {
      var p := Parse(rest + last);
      assert [last][1..] == [] && Feed(p.rest, []) == Parsed([], p.rest, true);
      assert Feed(rest, [last]) == Parsed(p.frames + [], p.rest, p.ok && true);
      assert pieces + [last] == [last];
    } else {
      var p := Parse(rest + pieces[0]);
      assert (pieces + [last])[1..] == pieces[1..] + [last] && (pieces + [last])[0] == pieces[0];
      FeedSnoc(p.rest, pieces[1..], last);
    }
  }
}
