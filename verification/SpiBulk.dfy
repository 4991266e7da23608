/** Bulk transfers over SPI, chunk by chunk, and the SPI packet checksum. */
module SpiBulk {
  import opened CanWire

  const SPI_BUF_SIZE := 2048
  const XFER_SIZE := SPI_BUF_SIZE - 0x40
  const SPI_CHECKSUM_START: bv8 := 0xab

  /** One chunk's outcome: a negative error code, or the bytes the device returned. */
  datatype Reply = Fail(code: int) | Data(bytes: Bytes)

  /** How many chunks the loop makes of `n` bytes. */
  function Chunks(n: nat): nat { (n + XFER_SIZE - 1) / XFER_SIZE }

  function Asked(n: nat, i: nat): int { if XFER_SIZE <= n - XFER_SIZE * i then XFER_SIZE else n - XFER_SIZE * i }

  lemma ChunksCover(n: nat, i: nat)
    ensures i < Chunks(n) <==> XFER_SIZE * i < n
  {
  }

  predicate Answered(n: nat, replies: seq<Reply>) {
    && |replies| >= Chunks(n)
    && forall i | 0 <= i < Chunks(n) ::
         match replies[i] case Fail(c) => c < 0 case Data(b) => |b| <= Asked(n, i)
  }

  function Payload(replies: seq<Reply>): Bytes {
    if replies == [] || replies[|replies| - 1].Fail? then []
    else Payload(replies[..|replies| - 1]) + replies[|replies| - 1].bytes
  }

  lemma NoPayload()
    ensures Payload([]) == []
  {
  }

  lemma PayloadSnoc(replies: seq<Reply>, i: nat)
    requires i < |replies| && replies[i].Data?
    ensures Payload(replies[..i + 1]) == Payload(replies[..i]) + replies[i].bytes
  {
    assert replies[..i + 1][..i] == replies[..i];
  }

  /** The i-th chunk continues what was sent before it, up to the end. */
  lemma NextChunk(tx: Bytes, n: nat, i: nat)
    requires n <= |tx| && i < Chunks(n)
    ensures 0 <= XFER_SIZE * i < n && 0 < Asked(n, i) && XFER_SIZE * i + Asked(n, i) <= n
    ensures var chunk := tx[XFER_SIZE * i..XFER_SIZE * i + Asked(n, i)];
      Sent(tx, n, i) + chunk == Sent(tx, n, i + 1) && Sent(tx, n, i + 1) <= tx[..n]
  {
    ChunksCover(n, i);
    ChunksCover(n, i + 1);
    assert tx[..XFER_SIZE * i] + tx[XFER_SIZE * i..XFER_SIZE * i + Asked(n, i)] == tx[..XFER_SIZE * i + Asked(n, i)];
  }

  /** The bytes of the first `i` chunks. */
  function Sent(tx: Bytes, n: nat, i: nat): Bytes
    requires n <= |tx|
  {
    if i < Chunks(n) then
      ChunksCover(n, i);
      tx[..XFER_SIZE * i]
    else tx[..n]
  }

  /** The buffer receives the chunks one after another without a gap, stopping after the first short one. */
  method BulkRead(rx: array<bv8>, rxLen: nat, replies: seq<Reply>) returns (ret: int, healthy: bool, ghost taken: nat)
    requires rxLen <= 0xffff && rxLen <= rx.Length && Answered(rxLen, replies)
    modifies rx
    ensures taken <= |replies| && (taken > 0 ==> 1984 * (taken - 1) < rxLen)
    ensures healthy ==> && 0 <= ret <= rxLen && rx[..ret] == Payload(replies[..taken])
                        && (forall k | 0 <= k < taken :: replies[k].Data?)
                        && (forall k | 0 <= k < taken - 1 :: |replies[k].bytes| == 1984)
                        && (1984 * taken < rxLen ==> taken > 0 && |replies[taken - 1].bytes| < 1984)
    ensures !healthy ==> 1984 * taken < rxLen && taken < |replies| && replies[taken] == Fail(ret)
                         && forall k | 0 <= k < taken :: replies[k].Data? && |replies[k].bytes| == 1984
    ensures rx[rxLen..] == old(rx[rxLen..])
  {
    hide Payload, Chunks;
    NoPayload();
    ret, healthy, taken := 0, true, 0;
    var i := 0;
    while i < Chunks(rxLen)
      invariant 0 <= i <= Chunks(rxLen) && taken == i <= |replies| && (i > 0 ==> XFER_SIZE * (i - 1) < rxLen)
      invariant i < Chunks(rxLen) ==> ret == XFER_SIZE * i
      invariant 0 <= ret <= rxLen && rx[..ret] == Payload(replies[..i])
      invariant forall k | 0 <= k < i :: replies[k].Data?
      invariant forall k | 0 <= k < (if i < Chunks(rxLen) then i else i - 1) :: |replies[k].bytes| == XFER_SIZE
      invariant rx[rxLen..] == old(rx[rxLen..])
    {
      ChunksCover(rxLen, i);
      ChunksCover(rxLen, i + 1);
      if replies[i].Fail? {
        return replies[i].code, false, i;
      }
      var b := replies[i].bytes;
      ghost var before := rx[..ret];
      forall k | 0 <= k < |b| {
        rx[XFER_SIZE * i + k] := b[k];
      }
      assert rx[..ret + |b|] == before + b;
      PayloadSnoc(replies, i);
      ret := ret + |b|;
      i, taken := i + 1, i + 1;
      if |b| < XFER_SIZE {
        break;
      }
    }
    ChunksCover(rxLen, taken);
  }

  function Total(codes: seq<int>): int { if codes == [] then 0 else Total(codes[..|codes| - 1]) + codes[|codes| - 1] }

  /** The chunks sent are the buffer, cut every XFER_SIZE bytes; the result is the sum of what the chunks returned. */
  method BulkWrite(tx: array<bv8>, txLen: nat, replies: seq<int>) returns (ret: int, healthy: bool, sent: seq<Bytes>)
    requires txLen <= 0xffff && txLen <= tx.Length && |replies| >= Chunks(txLen)
    ensures |sent| <= |replies| && (healthy ==> ret == Total(replies[..|sent|]))
    ensures healthy ==> Concat(sent) == tx[..txLen] && forall k | 0 <= k < |sent| :: replies[k] >= 0
    ensures !healthy ==> 0 < |sent| && ret == replies[|sent| - 1] < 0 && Concat(sent) <= tx[..txLen]
    ensures forall k | 0 <= k < |sent| :: |sent[k]| == if 1984 * k + 1984 <= txLen then 1984 else txLen - 1984 * k
    ensures forall k | 0 <= k < |sent| :: sent[k] != []
  {
    NoPieces();
    hide Concat, Chunks, Sent, Total;
    ret, healthy, sent := 0, true, [];
    var i := 0;
    NoTotal();
    NothingSent(tx[..], txLen);
    while i < Chunks(txLen)
      invariant 0 <= i <= Chunks(txLen) && |sent| == i
      invariant Concat(sent) == Sent(tx[..], txLen, i)
      invariant forall k | 0 <= k < i :: replies[k] >= 0 && 0 < |sent[k]| == Asked(txLen, k)
      invariant ret == Total(replies[..i])
    {
      NextChunk(tx[..], txLen, i);
      var len := Asked(txLen, i);
      var chunk := tx[XFER_SIZE * i..XFER_SIZE * i + len];
      assert chunk == tx[..][XFER_SIZE * i..XFER_SIZE * i + len];
      ConcatSnoc(sent, chunk);
      sent := sent + [chunk];
      if replies[i] < 0 {
        return replies[i], false, sent;
      }
      TotalSnoc(replies, i);
      ret := ret + replies[i];
      i := i + 1;
    }
    AllSent(tx[..], txLen);
  }

  lemma NoTotal()
    ensures Total([]) == 0
  {
  }

  lemma TotalSnoc(codes: seq<int>, i: nat)
    requires i < |codes|
    ensures Total(codes[..i + 1]) == Total(codes[..i]) + codes[i]
  {
    assert codes[..i + 1][..i] == codes[..i];
  }

  lemma NothingSent(tx: Bytes, n: nat)
    requires n <= |tx|
    ensures Sent(tx, n, 0) == []
  {
  }

  lemma AllSent(tx: Bytes, n: nat)
    requires n <= |tx|
    ensures Sent(tx, n, Chunks(n)) == tx[..n]
  {
  }

  method AddChecksum(data: array<bv8>, dataLen: nat)
    requires dataLen < data.Length
    modifies data
    ensures data[..dataLen] == old(data[..dataLen])
    ensures 0xab ^ Xor(data[..dataLen + 1]) == 0
    ensures data[dataLen + 1..] == old(data[dataLen + 1..])
  {
    hide Xor;
    NoBytes();
    data[dataLen] := SPI_CHECKSUM_START;
    for i := 0 to dataLen
      invariant data[..dataLen] == old(data[..dataLen])
      invariant data[dataLen] == SPI_CHECKSUM_START ^ Xor(data[..i])
      invariant data[dataLen + 1..] == old(data[dataLen + 1..])
    {
      ghost var before := data[..dataLen];
      XorSnoc(data[..i], data[i]);
      assert data[..i + 1] == data[..i] + [data[i]] == before[..i + 1];
      data[dataLen] := data[dataLen] ^ data[i];
      assert data[..dataLen] == before && data[..i + 1] == data[..dataLen][..i + 1];
    }
    XorSnoc(data[..dataLen], data[dataLen]);
    assert data[..dataLen + 1] == data[..dataLen] + [data[dataLen]];
  }

  lemma XorSnoc(s: Bytes, b: bv8)
    ensures Xor(s + [b]) == Xor(s) ^ b
  {
    XorAppend(s, [b]);
    assert [b][..0] == [] && [b][1..] == [];
  }

  lemma NoBytes()
    ensures Xor([]) == 0
  {
  }

  /** Accepts exactly the packets whose bytes cancel, so what AddChecksum wrote is accepted and any
      other last byte is not. */
  method CheckChecksum(data: array<bv8>, dataLen: nat) returns (ok: bool)
    requires dataLen <= data.Length && dataLen <= 0xffff
    ensures ok <==> 0xab ^ Xor(data[..dataLen]) == 0
  {
    var checksum := SPI_CHECKSUM_START;
    for i := 0 to dataLen
      invariant checksum == SPI_CHECKSUM_START ^ Xor(data[..i])
    {
      assert data[..i + 1][..i] == data[..i];
      checksum := checksum ^ data[i];
    }
    ok := checksum == 0;
  }

  lemma OneChecksumFits(packet: Bytes, a: bv8, b: bv8)
    requires SPI_CHECKSUM_START ^ Xor(packet + [a]) == 0
    ensures SPI_CHECKSUM_START ^ Xor(packet + [b]) == 0 <==> a == b
  {
    assert (packet + [a])[..|packet|] == packet && (packet + [b])[..|packet|] == packet;
  }
}
