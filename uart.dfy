/**
 * The BLE capture link of `uart.py`: a serial byte stream that carries frames, each a
 * fixed little-endian header (magic, sequence, advertisement count, device count)
 * followed by fixed-size device blocks.
 *
 * The serial port is a finite byte sequence read through a cursor. A read near the end
 * returns the bytes that are left, as a read with a timeout would; once the stream is
 * exhausted the synchronisation loop, whose one-byte read would block forever, ends
 * the receive loop instead.
 */
module Uart {
  import opened Common
  import opened Text

  const SYNC_BYTE: byte := 0x55
  const MAGIC: seq<byte> := [0x55, 0x55, 0x55, 0x55]

  /** Header fields in wire order: magic 4, sequence 1, n_adv_raw 2, n_mac 2. */
  const HEADER_LENGTH: nat := 9
  /** Device fields in wire order: mac 6, addr_type 1, adv_type 1, rssi 1, data_len 1, data 31, n_adv 1. */
  const DEVICE_LENGTH: nat := 42
  const MAX_DEVICES: nat := 1024
  /**
   * Size of the data field of a device block: the legacy advertising AdvData limit of
   * the Bluetooth Core Specification, Vol 6, Part B, section 2.3.1.
   */
  const ADV_DATA_LENGTH: nat := 31

  // ---------------------------------------------------------------------------
  // Header

  datatype Header = Header(sequence: byte, nAdvRaw: nat, nMac: nat)

  /** `struct.unpack('<H', ...)` of two bytes. */
  function U16(lo: byte, hi: byte): nat
  {
    lo + 256 * hi
  }

  /** `data[:4] == HEADER_MAGIC` */
  function CheckHeader(data: seq<byte>): (ok: bool)
    ensures ok <==> |data| >= 4 && data[0] == SYNC_BYTE && data[1] == SYNC_BYTE
                    && data[2] == SYNC_BYTE && data[3] == SYNC_BYTE
  {
    Slice(data, 0, 4) == MAGIC
  }

  /**
   * `_parse_header`: every exception (an index past the end, a short `unpack`) is
   * caught and turned into `None`.
   */
  function ParseHeader(data: seq<byte>): (h: Option<Header>)
    ensures h.Some? <==> CheckHeader(data) && |data| >= HEADER_LENGTH
    ensures h.Some? ==> h.value == Header(data[4], U16(data[5], data[6]), U16(data[7], data[8]))
  {
    if !CheckHeader(data) then None
    else if |data| <= 4 then None
    else if |Slice(data, 5, 7)| != 2 then None
    else if |Slice(data, 7, 9)| != 2 then None
    else Some(Header(data[4], U16(data[5], data[6]), U16(data[7], data[8])))
  }

  /** The bytes a sender puts on the wire for a header. */
  function EncodeHeader(h: Header): (data: seq<byte>)
    requires h.nAdvRaw < 0x1_0000 && h.nMac < 0x1_0000
    ensures |data| == HEADER_LENGTH && data[..4] == MAGIC
  {
    MAGIC + [h.sequence, h.nAdvRaw % 256, h.nAdvRaw / 256, h.nMac % 256, h.nMac / 256]
  }

  /** Parsing an encoded header gives it back, whatever bytes follow it. */
  lemma HeaderRoundTrip(h: Header, rest: seq<byte>)
    requires h.nAdvRaw < 0x1_0000 && h.nMac < 0x1_0000
    ensures ParseHeader(EncodeHeader(h) + rest) == Some(h)
  {
    var data := EncodeHeader(h) + rest;
    assert data[..HEADER_LENGTH] == EncodeHeader(h);
  }

  /** A parsed header is determined by, and determines, the first nine bytes. */
  lemma HeaderDetermined(data: seq<byte>, h: Header)
    requires ParseHeader(data) == Some(h)
    ensures h.nAdvRaw < 0x1_0000 && h.nMac < 0x1_0000
    ensures EncodeHeader(h) == data[..HEADER_LENGTH]
  {
    U16Split(data[5], data[6]);
    U16Split(data[7], data[8]);
  }

  /** Two bytes combined little-endian come apart again with `% 256` and `/ 256`. */
  lemma U16Split(lo: byte, hi: byte)
    ensures U16(lo, hi) < 0x1_0000 && U16(lo, hi) % 256 == lo && U16(lo, hi) / 256 == hi
  {
    var x := U16(lo, hi);
    assert x == 256 * hi + lo;
  }

  // ---------------------------------------------------------------------------
  // Device blocks

  datatype Device = Device(mac: string, addrType: byte, advType: byte, rssi: int,
                           dataLen: byte, data: seq<byte>, nAdv: byte)

  function HexGroups(bytes: seq<byte>): (groups: seq<string>)
    ensures |groups| == |bytes|
    ensures forall i :: 0 <= i < |bytes| ==> groups[i] == HexPair(bytes[i], UPPER_HEX_DIGITS)
  {
    seq(|bytes|, i requires 0 <= i < |bytes| => HexPair(bytes[i], UPPER_HEX_DIGITS))
  }

  /** Each group is two upper-case hexadecimal digits that read back as its byte. */
  lemma HexGroupsDecode(bytes: seq<byte>)
    ensures |HexGroups(bytes)| == |bytes|
    ensures forall i :: 0 <= i < |bytes| ==>
      var g := HexGroups(bytes)[i];
      |g| == 2 && g[0] in UPPER_HEX_DIGITS && g[1] in UPPER_HEX_DIGITS
      && 16 * HexValue(g[0]) + HexValue(g[1]) == bytes[i]
  {
    forall i | 0 <= i < |bytes|
      ensures 16 * HexValue(HexGroups(bytes)[i][0]) + HexValue(HexGroups(bytes)[i][1]) == bytes[i]
    {
      HexPairValue(bytes[i], UPPER_HEX_DIGITS);
    }
  }

  /** `':'.join(f'{b:02X}' for b in bytes)` */
  function FormatMac(bytes: seq<byte>): string
  {
    Join(HexGroups(bytes), ":")
  }

  /** Reads back the two hexadecimal digits at every third position of a MAC string. */
  function ParseMac(s: string): seq<byte>
    decreases |s|
  {
    if |s| < 2 then []
    else [16 * HexValue(s[0]) + HexValue(s[1])] + (if |s| <= 3 then [] else ParseMac(s[3..]))
  }

  lemma FormatMacCons(bytes: seq<byte>)
    requires |bytes| >= 2
    ensures FormatMac(bytes) == HexPair(bytes[0], UPPER_HEX_DIGITS) + ":" + FormatMac(bytes[1..])
  {
    assert HexGroups(bytes)[1..] == HexGroups(bytes[1..]);
  }

  lemma {:induction false} MacLength(bytes: seq<byte>)
    requires |bytes| > 0
    ensures |FormatMac(bytes)| == 3 * |bytes| - 1
    decreases |bytes|
  {
    if |bytes| == 1 {
      assert FormatMac(bytes) == HexPair(bytes[0], UPPER_HEX_DIGITS);
    } else {
      FormatMacCons(bytes);
      MacLength(bytes[1..]);
    }
  }

  /**
   * A rendered MAC is `3n - 1` characters long, with a colon at every third position
   * and upper-case hexadecimal digits elsewhere.
   */
  lemma {:induction false} MacShape(bytes: seq<byte>)
    requires |bytes| > 0
    ensures |FormatMac(bytes)| == 3 * |bytes| - 1
    ensures forall i :: 0 <= i < |FormatMac(bytes)| ==>
              (FormatMac(bytes)[i] == ':' <==> i % 3 == 2)
    ensures forall i :: 0 <= i < |FormatMac(bytes)| && i % 3 != 2 ==>
              FormatMac(bytes)[i] in UPPER_HEX_DIGITS
    decreases |bytes|
  {
    if |bytes| == 1 {
      ShapeSingle(bytes[0]);
      assert bytes == [bytes[0]];
    } else {
      var head := HexPair(bytes[0], UPPER_HEX_DIGITS);
      assert head[0] in UPPER_HEX_DIGITS && head[1] in UPPER_HEX_DIGITS;
      FormatMacCons(bytes);
      MacShape(bytes[1..]);
      ShapeCons(head, FormatMac(bytes[1..]));
    }
  }

  /** A one-byte MAC is two upper-case hexadecimal digits. */
  lemma ShapeSingle(b: byte)
    ensures var s := FormatMac([b]);
            |s| == 2 && s[0] in UPPER_HEX_DIGITS && s[1] in UPPER_HEX_DIGITS
  {
    assert FormatMac([b]) == HexPair(b, UPPER_HEX_DIGITS);
  }

  /** A hexadecimal pair, a colon and a well-shaped rest make a well-shaped string. */
  lemma ShapeCons(head: string, tail: string)
    requires |head| == 2 && head[0] in UPPER_HEX_DIGITS && head[1] in UPPER_HEX_DIGITS
    requires forall i :: 0 <= i < |tail| ==> (tail[i] == ':' <==> i % 3 == 2)
    requires forall i :: 0 <= i < |tail| && i % 3 != 2 ==> tail[i] in UPPER_HEX_DIGITS
    ensures var s := head + ":" + tail;
            (forall i :: 0 <= i < |s| ==> (s[i] == ':' <==> i % 3 == 2))
            && (forall i :: 0 <= i < |s| && i % 3 != 2 ==> s[i] in UPPER_HEX_DIGITS)
  {
    var s := head + ":" + tail;
    forall i | 0 <= i < |s|
      ensures (s[i] == ':' <==> i % 3 == 2)
      ensures i % 3 != 2 ==> s[i] in UPPER_HEX_DIGITS
    {
      if i >= 3 {
        assert s[i] == tail[i - 3];
      }
    }
  }

  /** A rendered MAC reads back to the bytes it came from. */
  lemma {:induction false} MacRoundTrip(bytes: seq<byte>)
    ensures ParseMac(FormatMac(bytes)) == bytes
    decreases |bytes|
  {
    if |bytes| == 1 {
      ParseMacSingle(bytes[0]);
      assert bytes == [bytes[0]];
    } else if |bytes| >= 2 {
      ParseMacStep(bytes);
      MacRoundTrip(bytes[1..]);
      assert bytes == [bytes[0]] + bytes[1..];
    }
  }

  /** A one-byte MAC reads back to that byte. */
  lemma ParseMacSingle(b: byte)
    ensures ParseMac(FormatMac([b])) == [b]
  {
    HexPairValue(b, UPPER_HEX_DIGITS);
    assert FormatMac([b]) == HexPair(b, UPPER_HEX_DIGITS);
  }

  /** Reading back a MAC of two or more bytes gives its first byte, then the rest read back. */
  lemma ParseMacStep(bytes: seq<byte>)
    requires |bytes| >= 2
    ensures ParseMac(FormatMac(bytes)) == [bytes[0]] + ParseMac(FormatMac(bytes[1..]))
  {
    FormatMacCons(bytes);
    HexPairValue(bytes[0], UPPER_HEX_DIGITS);
    ParseMacCons(HexPair(bytes[0], UPPER_HEX_DIGITS), FormatMac(bytes[1..]));
  }

  /** Reading a MAC string back takes its first pair, skips the colon and reads on. */
  lemma ParseMacCons(head: string, tail: string)
    requires |head| == 2
    ensures ParseMac(head + ":" + tail) == [16 * HexValue(head[0]) + HexValue(head[1])] + ParseMac(tail)
  {
    var s := head + ":" + tail;
    assert s[0] == head[0] && s[1] == head[1] && s[3..] == tail;
  }

  lemma MacOfSixBytes(bytes: seq<byte>)
    requires |bytes| == 6
    ensures |FormatMac(bytes)| == 17 && ParseMac(FormatMac(bytes)) == bytes
  {
    MacShape(bytes);
    MacRoundTrip(bytes);
  }

  /** The RSSI conversion of `_parse_device`: bytes above 127 as two's complement, the rest negated. */
  function DecodeRssi(b: byte): (rssi: int)
    ensures -128 <= rssi <= 0
  {
    if b > 127 then -(256 - b as int) else -(b as int)
  }

  /** A signed byte read in two's complement, the reading a C `int8_t` would give. */
  function TwosComplement(b: byte): int
  {
    if b >= 128 then b - 256 else b
  }

  /**
   * The conversion agrees with two's complement exactly on the negative readings (and
   * zero), and maps each byte in 1..127 to the same value as its complement 256 - b.
   */
  lemma RssiConversion(b: byte)
    ensures DecodeRssi(b) == TwosComplement(b) <==> b == 0 || b >= 128
    ensures 0 < b < 128 ==> DecodeRssi(b) == DecodeRssi(256 - b) && b != 256 - b
  {
  }

  /** `_parse_device`: a block parses exactly when it is `DEVICE_LENGTH` bytes long. */
  function ParseDevice(data: seq<byte>): (d: Option<Device>)
    ensures d.Some? <==> |data| == DEVICE_LENGTH
  {
    if |data| != DEVICE_LENGTH then None
    else Some(Device(FormatMac(data[0..6]), data[6], data[7], DecodeRssi(data[8]),
                     data[9], data[10..10 + ADV_DATA_LENGTH], data[41]))
  }

  /**
   * A parsed device gives back every byte of its block except the RSSI byte, which it
   * pins down only up to the ambiguity of `DecodeRssi`.
   */
  lemma DeviceRecoversBlock(data: seq<byte>, d: Device)
    requires ParseDevice(data) == Some(d)
    ensures |d.mac| == 17 && |d.data| == ADV_DATA_LENGTH
    ensures data == ParseMac(d.mac) + [d.addrType, d.advType, data[8], d.dataLen] + d.data + [d.nAdv]
    ensures DecodeRssi(data[8]) == d.rssi
  {
    MacOfSixBytes(data[0..6]);
    assert data == data[0..6] + [data[6], data[7], data[8], data[9]] + data[10..41] + [data[41]];
  }

  // ---------------------------------------------------------------------------
  // Sequence numbers

  /** What `_check_sequence` reports: the received number is not the successor, mod 256, of the last. */
  function IsGap(last: byte, received: byte): bool
  {
    received != (last as int + 1) % 256
  }

  /** The reports of successive `_check_sequence` calls, starting from `last`. */
  function GapReports(last: byte, received: seq<byte>): (r: seq<bool>)
    ensures |r| == |received|
    decreases |received|
  {
    if received == [] then []
    else [IsGap(last, received[0])] + GapReports(received[0], received[1..])
  }

  /** Each number is the successor, mod 256, of the one before, the first of `last`. */
  ghost predicate Consecutive(last: byte, received: seq<byte>)
  {
    (received != [] ==> received[0] == (last as int + 1) % 256)
    && forall i :: 0 < i < |received| ==> received[i] == (received[i - 1] as int + 1) % 256
  }

  /** A run of consecutive numbers, wrapping from 255 to 0 included, reports no gap. */
  lemma {:induction false} ConsecutiveHasNoGap(last: byte, received: seq<byte>)
    requires Consecutive(last, received)
    ensures forall i :: 0 <= i < |received| ==> !GapReports(last, received)[i]
    decreases |received|
  {
    if received != [] {
      assert Consecutive(received[0], received[1..]) by {
        forall i | 0 < i < |received[1..]|
          ensures received[1..][i] == (received[1..][i - 1] as int + 1) % 256
        {
          assert received[1..][i] == received[i + 1];
        }
      }
      ConsecutiveHasNoGap(received[0], received[1..]);
    }
  }

  // ---------------------------------------------------------------------------
  // The byte stream and the receive loop

  /** `serial.read(n)` with the cursor at `pos`: `n` bytes, or what is left of the stream. */
  function ReadAt(s: seq<byte>, pos: nat, n: nat): (r: seq<byte>)
    ensures |r| <= n
    ensures pos <= |s| ==> |r| == Min(n, |s| - pos)
  {
    Slice(s, pos, pos + n)
  }

  /** What a read gives are the bytes at the cursor, in order. */
  lemma ReadAtSlice(s: seq<byte>, pos: nat, n: nat)
    requires pos <= |s|
    ensures ReadAt(s, pos, n) == s[pos..pos + |ReadAt(s, pos, n)|]
  {
  }

  /**
   * The header search of `receive_messages`: read a byte; if it is 0x55, read three
   * more and stop if the four make the magic, else drop all four and go on. Gives the
   * cursor just past the magic, or `None` if the stream runs out first.
   */
  function SyncFrom(s: seq<byte>, pos: nat): (r: Option<nat>)
    requires pos <= |s|
    ensures r.Some? ==> pos + 4 <= r.value <= |s|
    decreases |s| - pos
  {
    if pos == |s| then None
    else if s[pos] != SYNC_BYTE then SyncFrom(s, pos + 1)
    else
      var more := ReadAt(s, pos + 1, 3);
      if [SYNC_BYTE] + more == MAGIC then Some(pos + 4) else SyncFrom(s, pos + 1 + |more|)
  }

  /** The search stops only just past four bytes that make the magic. */
  lemma {:induction false} SyncFromMagic(s: seq<byte>, pos: nat)
    requires pos <= |s|
    ensures SyncFrom(s, pos).Some? ==> s[SyncFrom(s, pos).value - 4..SyncFrom(s, pos).value] == MAGIC
    decreases |s| - pos
  {
    if pos < |s| {
      if s[pos] != SYNC_BYTE {
        SyncFromMagic(s, pos + 1);
      } else {
        var more := ReadAt(s, pos + 1, 3);
        ReadAtSlice(s, pos + 1, 3);
        if [SYNC_BYTE] + more == MAGIC {
          assert s[pos..pos + 4] == [s[pos]] + more;
        } else {
          SyncFromMagic(s, pos + 1 + |more|);
        }
      }
    }
  }

  /** Garbage free of 0x55 before a magic is skipped whatever its length. */
  lemma {:induction false} SyncSkipsJunk(junk: seq<byte>, rest: seq<byte>, i: nat)
    requires SYNC_BYTE !in junk && i <= |junk|
    ensures SyncFrom(junk + MAGIC + rest, i) == Some(|junk| + 4)
    decreases |junk| - i
  {
    var s := junk + MAGIC + rest;
    if i < |junk| {
      assert s[i] == junk[i];
      SyncSkipsJunk(junk, rest, i + 1);
    } else {
      assert s[i..i + 4] == MAGIC;
      assert ReadAt(s, i + 1, 3) == MAGIC[1..];
    }
  }

  /**
   * The search is not a sliding window: in 55 00 55 55 55 55 the first four bytes are
   * read and dropped together, and the magic at offset 2 is never seen.
   */
  lemma SyncMissesUnalignedMagic()
    ensures var s: seq<byte> := [0x55, 0x00, 0x55, 0x55, 0x55, 0x55];
            s[2..6] == MAGIC && SyncFrom(s, 0) == None
  {
    var s: seq<byte> := [0x55, 0x00, 0x55, 0x55, 0x55, 0x55];
    var first := ReadAt(s, 1, 3);
    assert first == [0x00, 0x55, 0x55];
    assert ([SYNC_BYTE] + first)[1] != MAGIC[1];
    assert SyncFrom(s, 0) == SyncFrom(s, 4);
    var second := ReadAt(s, 5, 3);
    assert second == [0x55] && |[SYNC_BYTE] + second| != |MAGIC|;
    assert SyncFrom(s, 4) == SyncFrom(s, 6) == None;
  }

  /** A 0x55 whose next three bytes do not complete the magic costs all four bytes. */
  lemma SyncDropsFourBytes(s: seq<byte>, pos: nat)
    requires pos + 4 <= |s| && s[pos] == SYNC_BYTE && s[pos..pos + 4] != MAGIC
    ensures SyncFrom(s, pos) == SyncFrom(s, pos + 4)
  {
    assert ReadAt(s, pos + 1, 3) == s[pos + 1..pos + 4];
    assert [SYNC_BYTE] + s[pos + 1..pos + 4] == s[pos..pos + 4];
  }

  /** What the receive loop prints about one frame. */
  datatype Report =
    | Oversized(header: Header)                              // n_mac above MAX_DEVICES
    | Received(header: Header, blocks: seq<Option<Device>>)  // one parse result per device read

  /** The `n` device reads of a frame from cursor `pos`: each block's parse, and the cursor after them. */
  function ReadBlocks(s: seq<byte>, pos: nat, n: nat): (r: (seq<Option<Device>>, nat))
    requires pos <= |s|
    ensures |r.0| == n && r.1 == Min(pos + DEVICE_LENGTH * n, |s|)
  {
    if n == 0 then ([], pos)
    else
      var prev := ReadBlocks(s, pos, n - 1);
      var block := ReadAt(s, prev.1, DEVICE_LENGTH);
      (prev.0 + [ParseDevice(block)], prev.1 + |block|)
  }

  /** One more read extends the blocks by the parse of the next 42 bytes. */
  lemma ReadBlocksNext(s: seq<byte>, pos: nat, n: nat)
    requires pos <= |s|
    ensures var prev := ReadBlocks(s, pos, n);
            var block := ReadAt(s, prev.1, DEVICE_LENGTH);
            ReadBlocks(s, pos, n + 1) == (prev.0 + [ParseDevice(block)], prev.1 + |block|)
  {
  }

  /** Block `i` of a frame is the parse of the 42 bytes at `pos + 42 i`, whatever the blocks before it held. */
  lemma {:induction false} ReadBlocksEach(s: seq<byte>, pos: nat, n: nat, i: nat)
    requires pos <= |s| && i < n
    ensures ReadBlocks(s, pos, n).0[i] == ParseDevice(ReadAt(s, pos + DEVICE_LENGTH * i, DEVICE_LENGTH))
    decreases n
  {
    var prev := ReadBlocks(s, pos, n - 1);
    if i < n - 1 {
      ReadBlocksEach(s, pos, n - 1, i);
    } else {
      assert ReadAt(s, prev.1, DEVICE_LENGTH) == ReadAt(s, pos + DEVICE_LENGTH * i, DEVICE_LENGTH);
    }
  }

  /**
   * One frame once the magic has been read at `p - 4 .. p`: the report it prints, if
   * any, and the cursor after it.
   */
  function ReadFrame(s: seq<byte>, p: nat): (r: (Option<Report>, nat))
    requires p <= |s|
    ensures p <= r.1 <= |s|
  {
    var rest := ReadAt(s, p, HEADER_LENGTH - 4);
    var q := p + |rest|;
    match ParseHeader(MAGIC + rest)
    case None => (None, q)
    case Some(h) =>
      if h.nMac > MAX_DEVICES then (Some(Oversized(h)), q)
      else
        var blocks := ReadBlocks(s, q, h.nMac);
        (Some(Received(h, blocks.0)), blocks.1)
  }

  /** Everything `receive_messages` prints about frames, from cursor `pos` to the end of the stream. */
  function Receive(s: seq<byte>, pos: nat): seq<Report>
    requires pos <= |s|
    decreases |s| - pos
  {
    match SyncFrom(s, pos)
    case None => []
    case Some(p) =>
      var frame := ReadFrame(s, p);
      (if frame.0.Some? then [frame.0.value] else []) + Receive(s, frame.1)
  }

  /** A frame announcing more than MAX_DEVICES devices is reported and no device byte is read. */
  lemma OversizedReadsNoDevice(s: seq<byte>, p: nat, h: Header)
    requires p + 5 <= |s|
    requires ParseHeader(MAGIC + ReadAt(s, p, 5)) == Some(h) && h.nMac > MAX_DEVICES
    ensures ReadFrame(s, p) == (Some(Oversized(h)), p + 5)
  {
  }

  /**
   * A frame announcing at most MAX_DEVICES devices is followed by exactly that many
   * 42-byte reads, and a block that does not parse (a short read at the end of the
   * stream) is kept as `None` without cutting the others off.
   */
  lemma FrameReadsEveryBlock(s: seq<byte>, p: nat, h: Header)
    requires p + 5 <= |s|
    requires ParseHeader(MAGIC + ReadAt(s, p, 5)) == Some(h) && h.nMac <= MAX_DEVICES
    ensures ReadFrame(s, p).0 == Some(Received(h, ReadBlocks(s, p + 5, h.nMac).0))
    ensures |ReadFrame(s, p).0.value.blocks| == h.nMac
    ensures ReadFrame(s, p).1 == Min(p + 5 + DEVICE_LENGTH * h.nMac, |s|)
  {
  }

  /** Once a frame has been read, the loop goes on from the cursor after it. */
  lemma ReceiveUnfold(s: seq<byte>, pos: nat, p: nat)
    requires pos <= |s| && SyncFrom(s, pos) == Some(p)
    ensures Receive(s, pos) == (if ReadFrame(s, p).0.Some? then [ReadFrame(s, p).0.value] else [])
                               + Receive(s, ReadFrame(s, p).1)
  {
  }

  /** One turn of the receive loop: the frame after the next magic extends the reports. */
  lemma ReceiveStep(s: seq<byte>, start: nat, p: nat, report: Option<Report>, q: nat,
                    before: seq<Report>, after: seq<Report>, whole: seq<Report>)
    requires start <= |s| && SyncFrom(s, start) == Some(p) && (report, q) == ReadFrame(s, p)
    requires before + Receive(s, start) == whole
    requires after == before + (if report.Some? then [report.value] else [])
    ensures q <= |s| && after + Receive(s, q) == whole
  {
    ReceiveUnfold(s, start, p);
    AppendAssociates(before, if report.Some? then [report.value] else [], Receive(s, q));
  }

  lemma AppendAssociates<T>(a: seq<T>, b: seq<T>, c: seq<T>)
    ensures a + (b + c) == (a + b) + c
  {
  }

  /** A magic followed by fewer header bytes than the header needs ends the stream silently. */
  lemma TruncatedFrameAtEnd(s: seq<byte>, pos: nat)
    requires pos + 4 < |s| < pos + HEADER_LENGTH && s[pos..pos + 4] == MAGIC
    ensures Receive(s, pos) == []
  {
    assert ReadAt(s, pos + 1, 3) == MAGIC[1..];
    assert SyncFrom(s, pos) == Some(pos + 4);
    assert ReadFrame(s, pos + 4) == (None, |s|);
  }

  /** A well-formed frame with two device blocks is reported with both devices. */
  lemma TwoDeviceFrame(s: seq<byte>, p: nat, h: Header)
    requires h.nAdvRaw < 0x1_0000 && h.nMac == 2
    requires p + 5 + 2 * DEVICE_LENGTH <= |s| && MAGIC + s[p..p + 5] == EncodeHeader(h)
    ensures ReadFrame(s, p) ==
      (Some(Received(h, [ParseDevice(s[p + 5..p + 5 + DEVICE_LENGTH]),
                         ParseDevice(s[p + 5 + DEVICE_LENGTH..p + 5 + 2 * DEVICE_LENGTH])])),
       p + 5 + 2 * DEVICE_LENGTH)
  {
    HeaderRoundTrip(h, []);
    assert EncodeHeader(h) + [] == EncodeHeader(h);
    assert ReadAt(s, p, 5) == s[p..p + 5];
    FrameReadsEveryBlock(s, p, h);
    var blocks := ReadBlocks(s, p + 5, 2).0;
    ReadBlocksEach(s, p + 5, 2, 0);
    ReadBlocksEach(s, p + 5, 2, 1);
    assert ReadAt(s, p + 5, DEVICE_LENGTH) == s[p + 5..p + 5 + DEVICE_LENGTH];
    assert ReadAt(s, p + 5 + DEVICE_LENGTH, DEVICE_LENGTH) == s[p + 5 + DEVICE_LENGTH..p + 5 + 2 * DEVICE_LENGTH];
    assert blocks == [blocks[0], blocks[1]];
  }

  /**
   * Three junk bytes, a frame with sequence 5, ten advertisements and two device
   * blocks, then the start of the next frame cut short: exactly one frame is reported,
   * carrying both devices.
   */
  lemma TwoDeviceFrameAfterJunk(a: seq<byte>, b: seq<byte>)
    requires |a| == DEVICE_LENGTH && |b| == DEVICE_LENGTH
    ensures var s := [1, 2, 3] + MAGIC + [5, 10, 0, 2, 0] + a + b + MAGIC + [6];
            Receive(s, 0) == [Received(Header(5, 10, 2), [ParseDevice(a), ParseDevice(b)])]
    ensures ParseDevice(a).Some? && ParseDevice(b).Some?
  {
    var junk: seq<byte> := [1, 2, 3];
    var frame: seq<byte> := [5, 10, 0, 2, 0];
    var tail := frame + a + b + MAGIC + [6];
    var s := [1, 2, 3] + MAGIC + [5, 10, 0, 2, 0] + a + b + MAGIC + [6];
    var h := Header(5, 10, 2);
    assert |s| == 101;
    assert SyncFrom(s, 0) == Some(7) by {
      assert s == junk + MAGIC + tail;
      SyncSkipsJunk(junk, tail, 0);
    }
    assert ReadFrame(s, 7) == (Some(Received(h, [ParseDevice(a), ParseDevice(b)])), 96) by {
      assert s[7..12] == frame;
      assert MAGIC + frame == EncodeHeader(h);
      assert s[12..54] == a && s[54..96] == b;
      TwoDeviceFrame(s, 7, h);
    }
    ReceiveUnfold(s, 0, 7);
    assert Receive(s, 96) == [] by {
      assert s[96..100] == MAGIC;
      TruncatedFrameAtEnd(s, 96);
    }
  }

  /** The receiving end of the serial link (`UARTReceiver`). */
  class Receiver {
    /** Everything the serial port delivers, in order. */
    const stream: seq<byte>
    /** How much of it has been read. */
    var pos: nat
    /** The last sequence number seen by `CheckSequence`. */
    var sequence: byte

    ghost predicate Valid()
      reads this
    {
      pos <= |stream|
    }

    constructor (stream: seq<byte>)
      ensures Valid() && this.stream == stream && pos == 0 && sequence == 0
    {
      this.stream := stream;
      pos := 0;
      sequence := 0;
    }

    /** `serial.read(n)` */
    method ReadBytes(n: nat) returns (data: seq<byte>)
      requires Valid()
      modifies this`pos
      ensures Valid()
      ensures data == ReadAt(stream, old(pos), n) && pos == old(pos) + |data|
    {
      data := ReadAt(stream, pos, n);
      pos := pos + |data|;
    }

    /** `_check_sequence`: reports a gap, then always records the received number. */
    method CheckSequence(received: byte) returns (mismatch: bool)
      modifies this`sequence
      ensures mismatch == IsGap(old(sequence), received)
      ensures sequence == received
    {
      mismatch := received != (sequence as int + 1) % 256;
      sequence := received;
    }

    /** The header search loop; `false` when the stream ends before a magic is read. */
    method Synchronize() returns (found: bool)
      requires Valid()
      modifies this`pos
      ensures Valid()
      ensures found == SyncFrom(stream, old(pos)).Some?
      ensures found ==> pos == SyncFrom(stream, old(pos)).value
      ensures !found ==> pos == |stream|
    {
      while true
        invariant Valid()
        invariant SyncFrom(stream, pos) == SyncFrom(stream, old(pos))
        decreases |stream| - pos
      {
        var b := ReadBytes(1);
        if b == [] {
          return false;
        }
        if b[0] == SYNC_BYTE {
          var more := ReadBytes(3);
          if [SYNC_BYTE] + more == MAGIC {
            return true;
          }
        }
      }
    }

    /**
     * The part of `receive_messages` after the magic: read and parse the header, check
     * the device count, then read and parse each device block.
     */
    method ReceiveFrame() returns (report: Option<Report>)
      requires Valid()
      modifies this`pos
      ensures Valid()
      ensures (report, pos) == ReadFrame(stream, old(pos))
    {
      var rest := ReadBytes(HEADER_LENGTH - 4);
      var header := ParseHeader(MAGIC + rest);
      if header.None? {
        return None;
      }
      if header.value.nMac > MAX_DEVICES {
        return Some(Oversized(header.value));
      }
      var blocks := ReadDeviceBlocks(header.value.nMac);
      report := Some(Received(header.value, blocks));
    }

    /** The `n` device reads that follow an accepted header, each block parsed on its own. */
    method ReadDeviceBlocks(n: nat) returns (blocks: seq<Option<Device>>)
      requires Valid()
      modifies this`pos
      ensures Valid()
      ensures (blocks, pos) == ReadBlocks(stream, old(pos), n)
    {
      ghost var q := pos;
      blocks := [];
      var i := 0;
      while i < n
        invariant Valid()
        invariant i <= n
        invariant (blocks, pos) == ReadBlocks(stream, q, i)
      {
        var block := ReadBytes(DEVICE_LENGTH);
        blocks := blocks + [ParseDevice(block)];
        i := i + 1;
      }
    }

    /**
     * `receive_messages`: frame after frame until the stream is used up. The sequence
     * check is never called, so the recorded sequence number does not move.
     */
    method ReceiveMessages() returns (reports: seq<Report>)
      requires Valid()
      modifies this`pos
      ensures Valid() && pos == |stream|
      ensures reports == Receive(stream, old(pos))
      ensures sequence == old(sequence)
    {
      reports := [];
      while true
        invariant Valid()
        invariant reports + Receive(stream, pos) == Receive(stream, old(pos))
        decreases |stream| - pos
      {
        ghost var start := pos;
        var found := Synchronize();
        if !found {
          return;
        }
        ghost var p, before := pos, reports;
        var report := ReceiveFrame();
        if report.Some? {
          reports := reports + [report.value];
        }
        ReceiveStep(stream, start, p, report, pos, before, reports, Receive(stream, old(pos)));
      }
    }
  }
}
