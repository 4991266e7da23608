/** The CAN-over-USB byte format of panda: a packed header, the data, and an XOR checksum. */
module CanWire {
  type Bytes = seq<bv8>

  const HEADER_SIZE := 6
  const MAX_DATA := 64
  const PANDA_BUSES: bv8 := 4
  const ADDRESS_MASK: bv32 := 0x1fffffff
  const REJECTED_OFFSET: bv32 := 0xc0
  const RETURNED_OFFSET: bv32 := 0x80

  // ----- data lengths

  /** The CAN FD data length code (clause 10.4.2 of ISO 11898-1:2015). */
  function DlcToLen(code: bv8): (len: nat)
    ensures len <= MAX_DATA
  {
    if code == 0 then 0 else if code == 1 then 1 else if code == 2 then 2 else if code == 3 then 3
    else if code == 4 then 4 else if code == 5 then 5 else if code == 6 then 6 else if code == 7 then 7
    else if code == 8 then 8 else if code == 9 then 12 else if code == 10 then 16 else if code == 11 then 20
    else if code == 12 then 24 else if code == 13 then 32 else if code == 14 then 48 else 64
  }

  predicate LegalLength(n: nat) {
    n <= 8 || n == 12 || n == 16 || n == 20 || n == 24 || n == 32 || n == 48 || n == 64
  }

  function LenToDlc(len: nat): (code: nat)
    requires len <= MAX_DATA
    ensures code < 16
  {
    if len <= 8 then len
    else if len <= 24 then 8 + (len - 8) / 4 + (if len % 4 != 0 then 1 else 0)
    else 11 + len / 16 + if len % 16 != 0 then 1 else 0
  }

  /** The code rounds up to the next legal length, so it is exact for exactly the legal ones. */
  lemma DlcRoundTrip(len: nat)
    requires len <= MAX_DATA
    ensures len <= DlcToLen(LenToDlc(len) as bv8)
    ensures DlcToLen(LenToDlc(len) as bv8) == len <==> LegalLength(len)
    ensures LenToDlc(len) as bv8 < 16
  {
    if len <= 8 {
    } else if len <= 24 {
      assert LenToDlc(len) in {9, 10, 11, 12};
    } else {
      assert LenToDlc(len) in {13, 14, 15};
    }
  }

  // ----- the header

  datatype Header = Header(bus: bv8, dlc: bv8, rejected: bool, returned: bool, extended: bool, addr: bv32) {
    predicate Legal() { bus < 8 && dlc < 16 && addr <= ADDRESS_MASK }
  }

  function Bit(b: bool): bv8 { if b then 1 else 0 }

  function FirstByte(dlc: bv8, bus: bv8): bv8 { (dlc << 4) | (bus << 1) }

  function SecondByte(addr: bv32, extended: bool, returned: bool, rejected: bool): bv8 {
    ((addr & 0x1f) as bv8 << 3) | (Bit(extended) << 2) | (Bit(returned) << 1) | Bit(rejected)
  }

  // The next three bytes take eight address bits each.
  function ThirdByte(addr: bv32): bv8 { ((addr >> 5) & 0xff) as bv8 }
  function FourthByte(addr: bv32): bv8 { ((addr >> 13) & 0xff) as bv8 }
  function FifthByte(addr: bv32): bv8 { ((addr >> 21) & 0xff) as bv8 }

  function Address(b1: bv8, b2: bv8, b3: bv8, b4: bv8): bv32 {
    (b1 as bv32 >> 3) | (b2 as bv32 << 5) | (b3 as bv32 << 13) | (b4 as bv32 << 21)
  }

  /** The five bytes before the checksum, as the bit fields are laid out. */
  function HeaderBytes(h: Header): (b: Bytes)
    ensures |b| == 5
  {
    [FirstByte(h.dlc, h.bus), SecondByte(h.addr, h.extended, h.returned, h.rejected),
     ThirdByte(h.addr), FourthByte(h.addr), FifthByte(h.addr)]
  }

  function Dlc(b0: bv8): bv8 { b0 >> 4 }

  function Bus(b0: bv8): bv8 { (b0 >> 1) & 7 }

  function Flag(b1: bv8, mask: bv8): bool { b1 & mask != 0 }

  function ParseHeader(b: Bytes): Header
    requires |b| >= 5
  {
    Header(Bus(b[0]), Dlc(b[0]), Flag(b[1], 1), Flag(b[1], 2), Flag(b[1], 4), Address(b[1], b[2], b[3], b[4]))
  }

  lemma HeaderRoundTrip(h: Header)
    requires h.Legal()
    ensures ParseHeader(HeaderBytes(h)) == h
  {
    FirstByteRoundTrip(h.dlc, h.bus);
    FlagsRoundTrip(h.addr, h.extended, h.returned, h.rejected);
    AddressRoundTrip(h.addr, h.extended, h.returned, h.rejected);
    hide FirstByte, SecondByte, ThirdByte, FourthByte, FifthByte, Address, Dlc, Bus, Flag;
  }

  lemma FirstByteRoundTrip(dlc: bv8, bus: bv8)
    ensures dlc < 16 && bus < 8 ==> Dlc(FirstByte(dlc, bus)) == dlc && Bus(FirstByte(dlc, bus)) == bus
  {
  }

  lemma FlagsRoundTrip(a: bv32, extended: bool, returned: bool, rejected: bool)
    ensures var b := SecondByte(a, extended, returned, rejected);
      Flag(b, 1) == rejected && Flag(b, 2) == returned && Flag(b, 4) == extended
  {
  }

  lemma AddressRoundTrip(a: bv32, extended: bool, returned: bool, rejected: bool)
    requires a <= ADDRESS_MASK
    ensures Address(SecondByte(a, extended, returned, rejected), ThirdByte(a), FourthByte(a), FifthByte(a)) == a
  {
  }

  /** The layout, bit field by bit field: a reserved bit, three bits of bus and four of length code; then, lowest
      bits first over four bytes, the three flags and 29 bits of address. */
  lemma HeaderLayout(h: Header)
    requires h.Legal()
    ensures var b := HeaderBytes(h);
      && b[0] as nat == 2 * h.bus as nat + 16 * h.dlc as nat
      && (b[4] as bv32 << 24) | (b[3] as bv32 << 16) | (b[2] as bv32 << 8) | (b[1] as bv32)
         == (h.addr << 3) | (if h.extended then 4 else 0) | (if h.returned then 2 else 0) | (if h.rejected then 1 else 0)
  {
    FirstByteLayout(h.dlc, h.bus);
    WordLayout(h.addr, h.extended, h.returned, h.rejected);
    hide FirstByte, SecondByte, ThirdByte, FourthByte, FifthByte;
  }

  lemma FirstByteLayout(dlc: bv8, bus: bv8)
    requires dlc < 16 && bus < 8
    ensures FirstByte(dlc, bus) as nat == 2 * bus as nat + 16 * dlc as nat
  {
    assert FirstByte(dlc, bus) == 2 * bus + 16 * dlc;
    assert (2 * bus) as nat == 2 * bus as nat && (16 * dlc) as nat == 16 * dlc as nat;
  }

  lemma WordLayout(a: bv32, extended: bool, returned: bool, rejected: bool)
    requires a <= ADDRESS_MASK
    ensures (FifthByte(a) as bv32 << 24) | (FourthByte(a) as bv32 << 16) | (ThirdByte(a) as bv32 << 8)
            | (SecondByte(a, extended, returned, rejected) as bv32)
         == (a << 3) | (if extended then 4 else 0) | (if returned then 2 else 0) | (if rejected then 1 else 0)
  {
  }

  // ----- the checksum

  function Xor(s: Bytes): bv8 {
    if s == [] then 0 else Xor(s[..|s| - 1]) ^ s[|s| - 1]
  }

  lemma {:induction false} XorAppend(a: Bytes, b: Bytes)
    ensures Xor(a + b) == Xor(a) ^ Xor(b)
  {
    if b == [] {
      assert a + b == a;
    } else {
      assert (a + b)[..|a + b| - 1] == a + b[..|b| - 1];
      XorAppend(a, b[..|b| - 1]);
    }
  }

  // ----- frames

  datatype WireFrame = WireFrame(header: Header, data: Bytes) {
    predicate Legal() { header.Legal() && |data| == DlcToLen(header.dlc) }
  }

  function EncodeFrame(f: WireFrame): Bytes {
    HeaderBytes(f.header) + [Xor(HeaderBytes(f.header) + f.data)] + f.data
  }

  function Encode(fs: seq<WireFrame>): Bytes {
    if fs == [] then [] else EncodeFrame(fs[0]) + Encode(fs[1..])
  }

  /** What the receiver is told: flags are folded into the bus number. */
  datatype Received = Received(address: bv32, src: bv32, dat: Bytes)

  function Deliver(f: WireFrame): Received {
    Received(f.header.addr,
             (f.header.bus as bv32) + (if f.header.rejected then REJECTED_OFFSET else 0)
             + (if f.header.returned then RETURNED_OFFSET else 0),
             f.data)
  }

  function DeliverAll(fs: seq<WireFrame>): seq<Received> {
    if fs == [] then [] else [Deliver(fs[0])] + DeliverAll(fs[1..])
  }

  /** Frames found, bytes left over, and whether every checksum was right. */
  datatype Parsed = Parsed(frames: seq<Received>, rest: Bytes, ok: bool)

  function FrameSize(b: Bytes): (n: nat)
    requires |b| >= HEADER_SIZE
    ensures HEADER_SIZE <= n <= HEADER_SIZE + MAX_DATA
  {
    HEADER_SIZE + DlcToLen(Dlc(b[0]))
  }

  predicate Complete(b: Bytes) { |b| >= HEADER_SIZE && |b| >= FrameSize(b) }

  function FirstFrame(b: Bytes): Received
    requires Complete(b)
  {
    Deliver(WireFrame(ParseHeader(b), b[HEADER_SIZE..FrameSize(b)]))
  }

  function Parse(b: Bytes): Parsed
    decreases |b|
  {
    if !Complete(b) then Parsed([], b, true)
    else if Xor(b[..FrameSize(b)]) != 0 then Parsed([], [], false)
    else
      var p := Parse(b[FrameSize(b)..]);
      p.(frames := [FirstFrame(b)] + p.frames)
  }

  /** One round of the decoder's loop: `out` and the bytes still to come account for the whole. */
  predicate Remaining(all: Bytes, out: seq<Received>, b: Bytes) {
    Parse(all) == Parse(b).(frames := out + Parse(b).frames)
  }

  lemma NextFrame(all: Bytes, out: seq<Received>, b: Bytes)
    requires Remaining(all, out, b)
    ensures !Complete(b) ==> Parse(all) == Parsed(out, b, true)
    ensures Complete(b) && Xor(b[..FrameSize(b)]) != 0 ==> Parse(all) == Parsed(out, [], false)
    ensures Complete(b) && Xor(b[..FrameSize(b)]) == 0 ==> Remaining(all, out + [FirstFrame(b)], b[FrameSize(b)..])
  {
    hide FirstFrame, Complete, FrameSize, Xor;
  }

  lemma FrameFromParts(header: Bytes, data: Bytes, b: Bytes)
    requires Complete(b) && header == b[..HEADER_SIZE] && data == b[HEADER_SIZE..FrameSize(b)]
    ensures FirstFrame(b) == Deliver(WireFrame(ParseHeader(header), data))
  {
    hide Bus, Dlc, Flag, Address, DlcToLen;
  }

  /** Successive receives: whatever one leaves over is put before the next piece. */
  function Feed(rest: Bytes, pieces: seq<Bytes>): Parsed
    decreases |pieces|
  {
    if pieces == [] then Parsed([], rest, true)
    else
      var p := Parse(rest + pieces[0]);
      var q := Feed(p.rest, pieces[1..]);
      Parsed(p.frames + q.frames, q.rest, p.ok && q.ok)
  }

  function Concat(pieces: seq<Bytes>): Bytes {
    if pieces == [] then [] else pieces[0] + Concat(pieces[1..])
  }

  lemma NoPieces()
    ensures Concat([]) == []
  {
  }

  lemma {:induction false} ConcatSnoc(pieces: seq<Bytes>, last: Bytes)
    ensures Concat(pieces + [last]) == Concat(pieces) + last
    decreases |pieces|
  {
    if pieces == [] {
      assert Concat([last]) == last + Concat([last][1..]);
    } else {
      assert (pieces + [last])[1..] == pieces[1..] + [last];
      ConcatSnoc(pieces[1..], last);
    }
  }

  // ----- streaming

  /** At most one byte less than a frame is carried over. */
  lemma {:induction false} RestIsShort(b: Bytes)
    ensures |Parse(b).rest| < HEADER_SIZE + MAX_DATA && !Complete(Parse(b).rest)
    decreases |b|
  {
    if Complete(b) && Xor(b[..FrameSize(b)]) == 0 {
      RestIsShort(b[FrameSize(b)..]);
    }
  }

  lemma HeaderOfPrefix(a: Bytes, b: Bytes)
    requires |a| >= HEADER_SIZE
    ensures ParseHeader(a + b) == ParseHeader(a) && FrameSize(a + b) == FrameSize(a)
  {
    hide Bus, Dlc, Flag, Address, DlcToLen;
  }

  /** Parsing may stop and resume anywhere. */
  lemma {:induction false} ParseSplit(a: Bytes, b: Bytes)
    ensures var p := Parse(a);
      if p.ok then
        var q := Parse(p.rest + b);
        Parse(a + b) == Parsed(p.frames + q.frames, q.rest, q.ok)
      else !Parse(a + b).ok && Parse(a + b).frames == p.frames
    decreases |a|
  {
    hide Xor, FirstFrame;
    if Complete(a) {
      PrefixParsesAlike(a, b);
      var n := FrameSize(a);
      hide FrameSize, Complete;
      ParseSplit(a[n..], b);
    }
  }

  lemma PrefixParsesAlike(a: Bytes, b: Bytes)
    requires Complete(a)
    ensures var n := FrameSize(a);
      && Complete(a + b) && FrameSize(a + b) == n && FirstFrame(a + b) == FirstFrame(a)
      && (a + b)[..n] == a[..n] && (a + b)[n..] == a[n..] + b
  {
    hide Deliver, ParseHeader, DlcToLen, Dlc;
    HeaderOfPrefix(a, b);
    assert (a + b)[HEADER_SIZE..FrameSize(a)] == a[HEADER_SIZE..FrameSize(a)];
  }

  /** However a byte stream is cut, the pieces give the batch result; a bad checksum is noticed either way. */
  lemma {:induction false} StreamingEqualsBatch(rest: Bytes, pieces: seq<Bytes>)
    requires !Complete(rest)
    ensures var batch := Parse(rest + Concat(pieces));
      && Feed(rest, pieces).ok == batch.ok
      && (batch.ok ==> Feed(rest, pieces) == batch)
      && batch.frames <= Feed(rest, pieces).frames
    decreases |pieces|
  {
    hide Complete, FrameSize, Xor, Deliver, ParseHeader;
    if pieces == [] {
      assert rest + Concat(pieces) == rest;
      assert Parse(rest) == Parsed([], rest, true);
    } else {
      var p := Parse(rest + pieces[0]);
      RestIsShort(rest + pieces[0]);
      ParseSplit(rest + pieces[0], Concat(pieces[1..]));
      assert rest + Concat(pieces) == (rest + pieces[0]) + Concat(pieces[1..]);
      if p.ok {
        StreamingEqualsBatch(p.rest, pieces[1..]);
      }
    }
  }

  lemma EncodedFrameParses(f: WireFrame, tail: Bytes)
    requires f.Legal()
    ensures var b := EncodeFrame(f) + tail;
      Complete(b) && FrameSize(b) == |EncodeFrame(f)| && b[FrameSize(b)..] == tail
      && Xor(b[..FrameSize(b)]) == 0
      && WireFrame(ParseHeader(b), b[HEADER_SIZE..FrameSize(b)]) == f
  {
    var h := HeaderBytes(f.header);
    var b := EncodeFrame(f) + tail;
    HeaderRoundTrip(f.header);
    assert b[..5] == h;
    assert ParseHeader(b) == ParseHeader(h);
    FirstByteRoundTrip(f.header.dlc, f.header.bus);
    assert FrameSize(b) == |EncodeFrame(f)|;
    assert b[..FrameSize(b)] == h + [Xor(h + f.data)] + f.data;
    var c := Xor(h + f.data);
    XorAppend(h, f.data);
    XorAppend(h + [c], f.data);
    XorAppend(h, [c]);
    assert [c][..0] == [];
  }

  lemma {:induction false} EncodeParses(fs: seq<WireFrame>)
    requires forall f | f in fs :: f.Legal()
    ensures Parse(Encode(fs)) == Parsed(DeliverAll(fs), [], true)
    decreases |fs|
  {
    if fs != [] {
      EncodedFrameParses(fs[0], Encode(fs[1..]));
      EncodeParses(fs[1..]);
    }
  }

  /** Any legal frames, cut anywhere, come out whole, in order, with nothing left over. */
  lemma StreamRoundTrip(fs: seq<WireFrame>, pieces: seq<Bytes>)
    requires forall f | f in fs :: f.Legal()
    requires Concat(pieces) == Encode(fs)
    ensures Feed([], pieces) == Parsed(DeliverAll(fs), [], true)
  {
    assert [] + Concat(pieces) == Encode(fs);
    EncodeParses(fs);
    StreamingEqualsBatch([], pieces);
  }

  lemma {:induction false} XorUpdate(s: Bytes, k: nat, v: bv8)
    requires k < |s|
    ensures Xor(s[k := v]) == Xor(s) ^ s[k] ^ v
  {
    var n := |s| - 1;
    if k == n {
      assert s[k := v][..n] == s[..n];
    } else {
      assert s[k := v][..n] == s[..n][k := v];
      XorUpdate(s[..n], k, v);
    }
  }

  /** Any damage to one byte of a frame is noticed, as long as the length code survives. */
  lemma DamageIsNoticed(f: WireFrame, tail: Bytes, k: nat, v: bv8)
    requires f.Legal() && k < |EncodeFrame(f)| && v != EncodeFrame(f)[k]
    requires k == 0 ==> Dlc(v) == f.header.dlc
    ensures Parse(EncodeFrame(f)[k := v] + tail) == Parsed([], [], false)
  {
    var good := EncodeFrame(f);
    var bad := good[k := v];
    EncodedFrameParses(f, tail);
    assert (good + tail)[..|good|] == good;
    XorUpdate(good, k, v);
    var b := bad + tail;
    FirstByteRoundTrip(f.header.dlc, f.header.bus);
    assert Dlc(b[0]) == f.header.dlc;
    assert FrameSize(b) == |good| && b[..FrameSize(b)] == bad;
  }

  // ----- what is on the wire, and what is told of it

  /** The frames a byte stream holds, with their whole headers. */
  function FramesIn(b: Bytes): seq<WireFrame>
    decreases |b|
  {
    if !Complete(b) then []
    else [WireFrame(ParseHeader(b), b[HEADER_SIZE..FrameSize(b)])] + FramesIn(b[FrameSize(b)..])
  }

  lemma {:induction false} EncodedFramesAreThere(fs: seq<WireFrame>)
    requires forall f | f in fs :: f.Legal()
    ensures FramesIn(Encode(fs)) == fs
    decreases |fs|
  {
    hide WireFrame.Legal, FrameSize, EncodeFrame;
    if fs != [] {
      EncodedFrameParses(fs[0], Encode(fs[1..]));
      EncodedFramesAreThere(fs[1..]);
      assert fs == [fs[0]] + fs[1..];
    } else {
      ShortHoldsNone();
    }
  }

  lemma ShortHoldsNone()
    ensures FramesIn([]) == []
  {
  }

  /** The bytes say what is delivered: the bus with 0xC0 added for a rejected and 0x80 for a returned frame, 29 bits
      of address, and the data. */
  lemma DeliveredSays(b: Bytes)
    requires Complete(b)
    ensures var r := FirstFrame(b); var bus := (b[0] as bv32 >> 1) & 7;
      && (b[1] & 1 == 0 && b[1] & 2 == 0 ==> r.src == bus)
      && (b[1] & 1 == 0 && b[1] & 2 != 0 ==> r.src == bus + 128)
      && (b[1] & 1 != 0 && b[1] & 2 == 0 ==> r.src == bus + 192)
      && (b[1] & 1 != 0 && b[1] & 2 != 0 ==> r.src == bus + 320)
      && r.address == ((b[4] as bv32 << 24) | (b[3] as bv32 << 16) | (b[2] as bv32 << 8) | (b[1] as bv32)) >> 3
      && r.dat == b[6..6 + |r.dat|] && |r.dat| == DlcToLen(b[0] >> 4)
  {
    BusWidens(b[0]);
    AddressIsWord(b[1], b[2], b[3], b[4]);
    hide DlcToLen, Address;
  }

  lemma BusWidens(b0: bv8)
    ensures Bus(b0) as bv32 == (b0 as bv32 >> 1) & 7
  {
  }

  lemma AddressIsWord(b1: bv8, b2: bv8, b3: bv8, b4: bv8)
    ensures Address(b1, b2, b3, b4) == ((b4 as bv32 << 24) | (b3 as bv32 << 16) | (b2 as bv32 << 8) | (b1 as bv32)) >> 3
  {
  }
}
