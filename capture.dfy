/**
 * The pure parts of the combined GPS + BLE tracker of `gps_ble_tracker.py`: its own
 * frame layout (a header with a one-byte device count), the RMC sentences of the GPS
 * receiver and the fix it retains, the one-line device summary, and the document it
 * hands to the database.
 */
module Capture {
  import opened Common
  import opened Text
  import opened Uart

  // ---------------------------------------------------------------------------
  // Layout

  /** Header fields of the combined tracker: magic 4, sequence 1, n_adv_raw 2, n_mac 1. */
  const COMBINED_HEADER_LENGTH: nat := 8

  /**
   * The header as the combined loop obtains it, reproducing its code: the magic, the
   * `COMBINED_HEADER_LENGTH - 4` bytes read after it, handed to the inherited parser
   * of `uart.py`, which wants a two-byte device count. The eight bytes are always one
   * short, so no header is ever accepted.
   */
  function InheritedFrameHeader(s: seq<byte>, p: nat): (h: Option<Header>)
    ensures h == None
  {
    var data := MAGIC + ReadAt(s, p, COMBINED_HEADER_LENGTH - 4);
    assert |data| < HEADER_LENGTH;
    ParseHeader(data)
  }

  /** The header a sender of the combined layout puts on the wire. */
  function EncodeNarrowHeader(h: Header): (data: seq<byte>)
    requires h.nAdvRaw < 0x1_0000 && h.nMac < 0x100
    ensures |data| == COMBINED_HEADER_LENGTH && data[..4] == MAGIC
  {
    MAGIC + [h.sequence, h.nAdvRaw % 256, h.nAdvRaw / 256, h.nMac]
  }

  /** The header parser the combined layout calls for: a one-byte `n_mac` at offset 7. */
  function ParseNarrowHeader(data: seq<byte>): (h: Option<Header>)
    ensures h.Some? <==> CheckHeader(data) && |data| >= COMBINED_HEADER_LENGTH
    ensures h.Some? ==> h.value.sequence == data[4] && h.value.nAdvRaw == U16(data[5], data[6])
                        && h.value.nMac == data[7] && h.value.nMac < 0x100
  {
    if !CheckHeader(data) || |data| < COMBINED_HEADER_LENGTH then None
    else Some(Header(data[4], U16(data[5], data[6]), data[7]))
  }

  /** Parsing an encoded combined header gives it back, whatever follows it. */
  lemma NarrowHeaderRoundTrip(h: Header, rest: seq<byte>)
    requires h.nAdvRaw < 0x1_0000 && h.nMac < 0x100
    ensures ParseNarrowHeader(EncodeNarrowHeader(h) + rest) == Some(h)
  {
    var data := EncodeNarrowHeader(h) + rest;
    assert data[..COMBINED_HEADER_LENGTH] == EncodeNarrowHeader(h);
  }

  /**
   * A well-formed combined frame announcing two devices: the inherited parser
   * rejects its header, the narrow one reads it.
   */
  lemma HeaderMismatchExample()
    ensures var s: seq<byte> := [5, 10, 0, 2];
            InheritedFrameHeader(s, 0) == None
            && ParseNarrowHeader(MAGIC + ReadAt(s, 0, COMBINED_HEADER_LENGTH - 4)) == Some(Header(5, 10, 2))
  {
    var s: seq<byte> := [5, 10, 0, 2];
    assert ReadAt(s, 0, 4) == s;
    assert MAGIC + s == EncodeNarrowHeader(Header(5, 10, 2)) + [];
    NarrowHeaderRoundTrip(Header(5, 10, 2), []);
  }

  // ---------------------------------------------------------------------------
  // GPS

  /**
   * What the NMEA parser makes of an RMC sentence (NMEA 0183 "Recommended Minimum
   * Specific GNSS Data"). Coordinates are abstract fixed-point numbers, 0 being the
   * value the parser gives for an empty field; `speed` is absent when the field is.
   */
  datatype Rmc = Rmc(status: char, latitude: int, longitude: int, speed: Option<int>)

  /** One line from the GPS port and what the parser gives for it (`None`: the parse raises). */
  datatype GpsLine = GpsLine(text: string, parsed: Option<Rmc>)

  /** The retained GPS fix (`last_gps_data`); a falsy coordinate is stored as `None`. */
  datatype Fix = Fix(longitude: Option<int>, latitude: Option<int>, speed: int, trackValid: bool)

  const RMC_PREFIX: string := "$GPRMC"

  predicate IsRmc(line: GpsLine) { StartsWith(line.text, RMC_PREFIX) }

  /** An RMC line whose status field says the fix is valid. */
  predicate IsValidRmc(line: GpsLine)
  {
    IsRmc(line) && line.parsed.Some? && line.parsed.value.status == 'A'
  }

  /** A line at which `_parse_gps` stops draining: a valid RMC, or an RMC line the parser rejects. */
  predicate StopsDrain(line: GpsLine)
  {
    IsRmc(line) && (line.parsed.None? || line.parsed.value.status == 'A')
  }

  /** The fix stored from a valid RMC sentence. */
  function StoredFix(rmc: Rmc): (f: Fix)
    ensures f.trackValid
    ensures f.latitude.None? <==> rmc.latitude == 0
    ensures f.longitude.None? <==> rmc.longitude == 0
    ensures f.latitude.Some? ==> f.latitude.value == rmc.latitude
    ensures f.longitude.Some? ==> f.longitude.value == rmc.longitude
    ensures f.speed == (if rmc.speed.Some? then rmc.speed.value else 0)
  {
    Fix(if rmc.longitude != 0 then Some(rmc.longitude) else None,
        if rmc.latitude != 0 then Some(rmc.latitude) else None,
        if rmc.speed.Some? && rmc.speed.value != 0 then rmc.speed.value else 0,
        true)
  }

  /**
   * `_parse_gps` with the GPS lines from `pos` on waiting to be read: the cursor after
   * the drain and the retained fix. Lines that are not RMC and RMC lines with another
   * status are consumed and ignored; the first valid RMC replaces the fix and ends the
   * drain; a parse failure ends it too, through the exception handler, leaving the fix.
   */
  function DrainGps(lines: seq<GpsLine>, pos: nat, last: Option<Fix>): (r: (nat, Option<Fix>))
    requires pos <= |lines|
    ensures pos <= r.0 <= |lines|
    ensures forall i :: pos <= i < r.0 - 1 ==> !StopsDrain(lines[i])
    ensures r.0 == |lines| || (pos < r.0 && StopsDrain(lines[r.0 - 1]))
    ensures r.1 != last ==>
              pos < r.0 && IsValidRmc(lines[r.0 - 1]) && r.1 == Some(StoredFix(lines[r.0 - 1].parsed.value))
    ensures pos < r.0 && IsValidRmc(lines[r.0 - 1]) ==> r.1 == Some(StoredFix(lines[r.0 - 1].parsed.value))
    decreases |lines| - pos
  {
    if pos == |lines| then (pos, last)
    else
      var line := lines[pos];
      if !IsRmc(line) then DrainGps(lines, pos + 1, last)
      else if line.parsed.None? then (pos + 1, last)
      else if line.parsed.value.status == 'A' then (pos + 1, Some(StoredFix(line.parsed.value)))
      else DrainGps(lines, pos + 1, last)
  }

  /** When the first line that stops the drain is a valid RMC, its fix is the one returned. */
  lemma {:induction false} DrainTakesFirstValidFix(lines: seq<GpsLine>, pos: nat, k: nat, last: Option<Fix>)
    requires pos <= k < |lines| && IsValidRmc(lines[k])
    requires forall i :: pos <= i < k ==> !StopsDrain(lines[i])
    ensures DrainGps(lines, pos, last) == (k + 1, Some(StoredFix(lines[k].parsed.value)))
    decreases k - pos
  {
    if pos < k {
      DrainTakesFirstValidFix(lines, pos + 1, k, last);
    }
  }

  /**
   * The status line and the notification format both coordinates of a present fix as
   * numbers; a `None` coordinate makes that formatting raise.
   */
  predicate FormatRaises(fix: Option<Fix>)
  {
    fix.Some? && (fix.value.latitude.None? || fix.value.longitude.None?)
  }

  // ---------------------------------------------------------------------------
  // Device summary

  /** `f"{mac}(RSSI:{rssi}dB)"` */
  function DeviceLabel(d: Device): (text: string)
    ensures StartsWith(text, d.mac)
  {
    d.mac + "(RSSI:" + IntToString(d.rssi) + "dB)"
  }

  /**
   * A label is the MAC, `(RSSI:`, the signal strength and `dB)`; the text between the two
   * literals reads back as the device's RSSI.
   */
  lemma DeviceLabelReadsBack(d: Device)
    ensures var text := DeviceLabel(d); var m := |d.mac|;
      m + 9 <= |text| && text[..m] == d.mac && text[m..m + 6] == "(RSSI:"
      && text[|text| - 3..] == "dB)" && SignedValue(text[m + 6..|text| - 3]) == d.rssi
  {
    var text := DeviceLabel(d);
    var m := |d.mac|;
    assert text[m + 6..|text| - 3] == IntToString(d.rssi);
    SignedValueOfIntToString(d.rssi);
  }

  /**
   * The device summary of a frame: the labels of the first three devices, then, when
   * there are more, `... +{n-3} {more}` (`más` in the console line, `more` in the
   * notification).
   */
  function Summary(devices: seq<Device>, more: string): (r: seq<string>)
    ensures |r| == (if |devices| > 3 then 4 else |devices|)
    ensures forall i :: 0 <= i < Min(|devices|, 3) ==> r[i] == DeviceLabel(devices[i])
    ensures |devices| > 3 ==> r[3] == "... +" + NatToString(|devices| - 3) + " " + more
  {
    var shown := if |devices| > 3 then devices[..3] else devices;
    seq(|shown|, i requires 0 <= i < |shown| => DeviceLabel(shown[i]))
      + (if |devices| > 3 then ["... +" + NatToString(|devices| - 3) + " " + more] else [])
  }

  /** The count in the last summary entry reads back as the number of devices not listed. */
  lemma SummaryAccountsForAll(devices: seq<Device>, more: string)
    requires |devices| > 3
    ensures var r := Summary(devices, more);
            var digits := NatToString(|devices| - 3);
            r[3][5..5 + |digits|] == digits && 3 + DigitsValue(digits) == |devices|
  {
    var digits := NatToString(|devices| - 3);
    DigitsValueOfNatToString(|devices| - 3);
    assert Summary(devices, more)[3] == "... +" + digits + (" " + more);
  }

  // ---------------------------------------------------------------------------
  // Storage document

  /** `bytes.hex()`: two lower-case digits per byte. */
  function HexString(bytes: seq<byte>): (s: string)
    ensures |s| == 2 * |bytes|
  {
    if bytes == [] then "" else HexPair(bytes[0], LOWER_HEX_DIGITS) + HexString(bytes[1..])
  }

  /** Reads back consecutive pairs of hexadecimal digits. */
  function HexBytes(s: string): seq<byte>
    decreases |s|
  {
    if |s| < 2 then [] else [16 * HexValue(s[0]) + HexValue(s[1])] + HexBytes(s[2..])
  }

  /** Hex-encoding loses nothing. */
  lemma {:induction false} HexRoundTrip(bytes: seq<byte>)
    ensures HexBytes(HexString(bytes)) == bytes
    decreases |bytes|
  {
    if bytes != [] {
      var s := HexString(bytes);
      HexPairValue(bytes[0], LOWER_HEX_DIGITS);
      assert s[2..] == HexString(bytes[1..]);
      HexRoundTrip(bytes[1..]);
      assert bytes == [bytes[0]] + bytes[1..];
    }
  }

  /** One entry of the document's `devices` list. */
  datatype DeviceDoc = DeviceDoc(mac: string, addrType: byte, advType: byte, rssi: int,
                                 dataLen: byte, data: string, nAdv: byte)

  /** The document stored per frame; the capture timestamp is left out. */
  datatype Document = Document(sequence: byte, nAdvRaw: nat, nMac: nat,
                               devices: seq<DeviceDoc>, gps: Option<Fix>)

  function DeviceDocument(d: Device): DeviceDoc
  {
    DeviceDoc(d.mac, d.addrType, d.advType, d.rssi, d.dataLen, HexString(d.data), d.nAdv)
  }

  /** The document `_store_buffer` builds from a header, the parsed devices and the fix. */
  function MakeDocument(h: Header, devices: seq<Device>, gps: Option<Fix>): (doc: Document)
    ensures |doc.devices| == |devices|
  {
    Document(h.sequence, h.nAdvRaw, h.nMac,
             seq(|devices|, i requires 0 <= i < |devices| => DeviceDocument(devices[i])), gps)
  }

  /**
   * The document copies the header counts and every device field one for one, in
   * order, with the advertising data recoverable from its hex text.
   */
  lemma DocumentRecoversDevices(h: Header, devices: seq<Device>, gps: Option<Fix>, i: nat)
    requires i < |devices|
    ensures var doc := MakeDocument(h, devices, gps);
            doc.sequence == h.sequence && doc.nAdvRaw == h.nAdvRaw && doc.nMac == h.nMac
            && doc.gps == gps
            && doc.devices[i].mac == devices[i].mac && doc.devices[i].rssi == devices[i].rssi
            && doc.devices[i].addrType == devices[i].addrType
            && doc.devices[i].advType == devices[i].advType
            && doc.devices[i].dataLen == devices[i].dataLen && doc.devices[i].nAdv == devices[i].nAdv
            && HexBytes(doc.devices[i].data) == devices[i].data
  {
    HexRoundTrip(devices[i].data);
  }
}
