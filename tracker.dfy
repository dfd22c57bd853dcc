/**
 * The receive loop of the combined GPS + BLE tracker (`CombinedTracker` of
 * `gps_ble_tracker.py`), with the notification override of `TelegramTracker`
 * (`telegram_tracker2.py`) composed in when a message queue is attached.
 *
 * Each turn of the loop drains the GPS port, finds the next magic on the BLE port,
 * reads a header and the device blocks it announces, keeps the devices that parse
 * and, when there are any, formats the status line and stores a document. The
 * database is reduced to a predicate saying which documents `insert_one` accepts.
 *
 * The header parser is a parameter of the model: `Inherited` is the code as it
 * stands (the link's two-byte-count parser applied to the eight-byte combined
 * header), `Narrow` the one-byte-count parser the combined layout calls for.
 */
module Tracker {
  import opened Common
  import opened Uart
  import opened Capture
  import opened Notify

  datatype HeaderLayout = Inherited | Narrow

  /** The header of a frame whose magic ends at `p`, as the chosen parser reads it. */
  function FrameHeader(layout: HeaderLayout, s: seq<byte>, p: nat): (h: Option<Header>)
    ensures layout == Inherited ==> h == None
    ensures layout == Narrow ==> h == ParseNarrowHeader(MAGIC + ReadAt(s, p, COMBINED_HEADER_LENGTH - 4))
  {
    match layout
    case Inherited => InheritedFrameHeader(s, p)
    case Narrow => ParseNarrowHeader(MAGIC + ReadAt(s, p, COMBINED_HEADER_LENGTH - 4))
  }

  /**
   * What the loop cannot change: both ports, which documents the database accepts,
   * whether a notification queue is attached, and the header parser.
   */
  datatype Env = Env(stream: seq<byte>, gps: seq<GpsLine>, accepts: Document -> bool,
                     notify: bool, layout: HeaderLayout)

  /** What it does change: both cursors, the retained fix, the collection, the queue, the counter. */
  datatype State = State(blePos: nat, gpsPos: nat, last: Option<Fix>, stored: seq<Document>,
                         queued: seq<Notification>, processed: nat)

  predicate Fits(env: Env, st: State)
  {
    st.blePos <= |env.stream| && st.gpsPos <= |env.gps|
  }

  /** `_parse_gps` on the tracker's state. */
  function Drain(env: Env, st: State): (r: State)
    requires Fits(env, st)
    ensures Fits(env, r) && r == st.(gpsPos := r.gpsPos, last := r.last)
  {
    var d := DrainGps(env.gps, st.gpsPos, st.last);
    st.(gpsPos := d.0, last := d.1)
  }

  /** How a call to `_store_buffer` ends: with its boolean result, or by raising. */
  datatype StoreOutcome = Stored(ok: bool) | Raised

  /**
   * `_store_buffer`: drain the GPS port, build the document with the fix now retained
   * and insert it; an insert that fails is caught and gives `False`. With a queue
   * attached, a successful store is followed by composing and enqueuing the
   * notification, which raises when the fix has a missing coordinate.
   */
  function Store(env: Env, st: State, h: Header, devices: seq<Device>): (r: (State, StoreOutcome))
    requires Fits(env, st)
    ensures Fits(env, r.0) && r.0.blePos == st.blePos && r.0.processed == st.processed
    ensures var doc := MakeDocument(h, devices, r.0.last);
            r.0.stored == st.stored + (if env.accepts(doc) then [doc] else [])
    ensures r.1 == Stored(true) || r.1 == Raised ==> env.accepts(MakeDocument(h, devices, r.0.last))
    ensures r.1 == Stored(false) <==> !env.accepts(MakeDocument(h, devices, r.0.last))
    ensures r.1 == Raised ==> env.notify
    ensures !env.notify || r.1 != Stored(true) ==> r.0.queued == st.queued
    ensures env.notify && r.1 == Stored(true) ==>
              Compose(h, devices, r.0.last).Ok? && r.0.queued == st.queued + [Compose(h, devices, r.0.last).value]
  {
    var st1 := Drain(env, st);
    var doc := MakeDocument(h, devices, st1.last);
    if !env.accepts(doc) then (st1, Stored(false))
    else
      var st2 := st1.(stored := st1.stored + [doc]);
      if !env.notify then (st2, Stored(true))
      else
        match Compose(h, devices, st2.last)
        case Err(_) => (st2, Raised)
        case Ok(n) => (st2.(queued := st2.queued + [n]), Stored(true))
  }

  /**
   * One frame once its magic has been read, the BLE cursor just past it: read the
   * header and the blocks it announces (no device-count limit in this loop), and keep
   * the devices that parse.
   */
  function Frame(env: Env, st: State): (r: State)
    requires Fits(env, st)
    ensures Fits(env, r) && st.blePos <= r.blePos
  {
    var rest := ReadAt(env.stream, st.blePos, COMBINED_HEADER_LENGTH - 4);
    AfterHeader(env, st.(blePos := st.blePos + |rest|), FrameHeader(env.layout, env.stream, st.blePos))
  }

  /** The rest of a turn once the header bytes are read: nothing more without a header. */
  function AfterHeader(env: Env, st: State, header: Option<Header>): (r: State)
    requires Fits(env, st)
    ensures Fits(env, r) && st.blePos <= r.blePos
  {
    match header
    case None => st
    case Some(h) =>
      var blocks := ReadBlocks(env.stream, st.blePos, h.nMac);
      Handle(env, st.(blePos := blocks.1), h, Present(blocks.0))
  }

  /**
   * The end of a turn, once the devices are read: nothing without devices; else drain
   * the GPS port, format the status line (which raises on a fix with a missing
   * coordinate, ending the turn), store, and count the frame when the store returns
   * `True`.
   */
  function Handle(env: Env, st: State, h: Header, devices: seq<Device>): (r: State)
    requires Fits(env, st)
    ensures Fits(env, r) && r.blePos == st.blePos
  {
    if devices == [] then st
    else
      var st1 := Drain(env, st);
      if FormatRaises(st1.last) then st1
      else Counted(Store(env, st1, h, devices))
  }

  /** The counter rises by one for a store that returned `True`. */
  function Counted(stored: (State, StoreOutcome)): (r: State)
    ensures r == stored.0.(processed := r.processed)
    ensures r.processed == stored.0.processed + (if stored.1 == Stored(true) then 1 else 0)
  {
    if stored.1 == Stored(true) then stored.0.(processed := stored.0.processed + 1) else stored.0
  }

  /** `receive_messages`: turn after turn until the BLE stream is used up. */
  function Run(env: Env, st: State): (r: State)
    requires Fits(env, st)
    ensures Fits(env, r) && r.blePos == |env.stream|
    decreases |env.stream| - st.blePos
  {
    var st1 := Drain(env, st);
    match SyncFrom(env.stream, st1.blePos)
    case None => st1.(blePos := |env.stream|)
    case Some(p) => Run(env, Frame(env, st1.(blePos := p)))
  }

  /**
   * What a stretch of the loop may do to the collection, the queue and the counter:
   * it only appends; every appended document has devices and was accepted; the
   * counter rises by at most the number of documents appended, by exactly that many
   * without a queue, and by the number of notifications enqueued with one.
   */
  ghost predicate Grows(env: Env, st: State, r: State)
  {
    |st.stored| <= |r.stored| && r.stored[..|st.stored|] == st.stored
    && |st.queued| <= |r.queued| && r.queued[..|st.queued|] == st.queued
    && st.processed <= r.processed
    && (forall i :: |st.stored| <= i < |r.stored| ==>
          r.stored[i].devices != [] && env.accepts(r.stored[i]))
    && r.processed - st.processed <= |r.stored| - |st.stored|
    && (!env.notify ==> r.queued == st.queued && r.processed - st.processed == |r.stored| - |st.stored|)
    && (env.notify ==> |r.queued| - |st.queued| == r.processed - st.processed)
  }

  lemma GrowsTrans(env: Env, a: State, b: State, c: State)
    requires Grows(env, a, b) && Grows(env, b, c)
    ensures Grows(env, a, c)
  {
    assert c.stored[..|a.stored|] == c.stored[..|b.stored|][..|a.stored|];
    assert c.queued[..|a.queued|] == c.queued[..|b.queued|][..|a.queued|];
  }

  /** `Grows` looks only at the collection, the queue and the counter. */
  lemma GrowsFromSameBooks(env: Env, a: State, b: State, r: State)
    requires a.stored == b.stored && a.queued == b.queued && a.processed == b.processed
    requires Grows(env, b, r)
    ensures Grows(env, a, r)
  {
  }

  /** A counted store of a non-empty device list only appends what `Grows` allows. */
  lemma StoreGrows(env: Env, st: State, h: Header, devices: seq<Device>)
    requires Fits(env, st) && devices != []
    ensures Grows(env, st, Counted(Store(env, st, h, devices)))
  {
    var stored := Store(env, st, h, devices);
    var r := Counted(stored);
    var doc := MakeDocument(h, devices, stored.0.last);
    assert |doc.devices| == |devices| > 0;
    assert r.stored[..|st.stored|] == st.stored;
    assert r.queued[..|st.queued|] == st.queued;
  }

  /** The end of a turn only appends, and appends a document only for devices it could store. */
  lemma HandleGrows(env: Env, st: State, h: Header, devices: seq<Device>)
    requires Fits(env, st)
    ensures Grows(env, st, Handle(env, st, h, devices))
  {
    if devices != [] {
      var st1 := Drain(env, st);
      if !FormatRaises(st1.last) {
        StoreGrows(env, st1, h, devices);
      }
    }
  }

  lemma FrameGrows(env: Env, st: State)
    requires Fits(env, st)
    ensures Grows(env, st, Frame(env, st))
  {
    var st0 := st.(blePos := st.blePos + |ReadAt(env.stream, st.blePos, COMBINED_HEADER_LENGTH - 4)|);
    var header := FrameHeader(env.layout, env.stream, st.blePos);
    assert Frame(env, st) == AfterHeader(env, st0, header);
    AfterHeaderGrows(env, st0, header);
    GrowsFromSameBooks(env, st, st0, AfterHeader(env, st0, header));
  }

  lemma AfterHeaderGrows(env: Env, st: State, header: Option<Header>)
    requires Fits(env, st)
    ensures Grows(env, st, AfterHeader(env, st, header))
  {
    match header
    case None =>
      assert st.stored[..|st.stored|] == st.stored && st.queued[..|st.queued|] == st.queued;
    case Some(h) =>
      var blocks := ReadBlocks(env.stream, st.blePos, h.nMac);
      var st1 := st.(blePos := blocks.1);
      var devices := Present(blocks.0);
      assert AfterHeader(env, st, header) == Handle(env, st1, h, devices);
      HandleGrows(env, st1, h, devices);
      GrowsFromSameBooks(env, st, st1, Handle(env, st1, h, devices));
  }

  /** The loop as a whole only appends, and counts at most what it stored. */
  lemma {:induction false} RunGrows(env: Env, st: State)
    requires Fits(env, st)
    ensures Grows(env, st, Run(env, st))
    decreases |env.stream| - st.blePos
  {
    var st1 := Drain(env, st);
    match SyncFrom(env.stream, st1.blePos)
    case None =>
    case Some(p) =>
      var st2 := st1.(blePos := p);
      FrameGrows(env, st2);
      RunGrows(env, Frame(env, st2));
      GrowsTrans(env, st2, Frame(env, st2), Run(env, Frame(env, st2)));
  }

  /**
   * The code as written stores nothing, counts nothing and notifies nothing, whatever
   * the ports deliver: every header is rejected and the frame is skipped.
   */
  lemma {:induction false} InheritedLayoutStoresNothing(env: Env, st: State)
    requires Fits(env, st) && env.layout == Inherited
    ensures var r := Run(env, st);
            r.stored == st.stored && r.queued == st.queued && r.processed == st.processed
    decreases |env.stream| - st.blePos
  {
    var st1 := Drain(env, st);
    match SyncFrom(env.stream, st1.blePos)
    case None =>
    case Some(p) =>
      InheritedLayoutStoresNothing(env, Frame(env, st1.(blePos := p)));
  }

  /**
   * With the narrow parser, a frame whose devices parse and whose retained fix is
   * either absent or complete is stored with those devices and that fix, and counted
   * when the database accepts it (and, with a queue, one notification is enqueued).
   */
  lemma NarrowFrameStored(env: Env, st: State, h: Header)
    requires Fits(env, st) && env.layout == Narrow
    requires FrameHeader(Narrow, env.stream, st.blePos) == Some(h)
    ensures var q := st.blePos + |ReadAt(env.stream, st.blePos, COMBINED_HEADER_LENGTH - 4)|;
            var devices := Present(ReadBlocks(env.stream, q, h.nMac).0);
            var fix := DrainGps(env.gps, st.gpsPos, st.last).1;
            var fix2 := DrainGps(env.gps, DrainGps(env.gps, st.gpsPos, st.last).0, fix).1;
            var doc := MakeDocument(h, devices, fix2);
            var r := Frame(env, st);
            devices != [] && !FormatRaises(fix) && env.accepts(doc) && (!env.notify || !FormatRaises(fix2)) ==>
              r.stored == st.stored + [doc] && r.processed == st.processed + 1
              && r.blePos == Min(q + DEVICE_LENGTH * h.nMac, |env.stream|)
  {
    var q := st.blePos + |ReadAt(env.stream, st.blePos, COMBINED_HEADER_LENGTH - 4)|;
    var blocks := ReadBlocks(env.stream, q, h.nMac);
    var st1 := st.(blePos := blocks.1);
    FrameHandles(env, st, h);
    if Present(blocks.0) != [] {
      HandleStores(env, st1, h, Present(blocks.0));
      var d := Drain(env, st1);
      var fix2 := DrainGps(env.gps, DrainGps(env.gps, st.gpsPos, st.last).0, d.last).1;
      assert d.last == DrainGps(env.gps, st.gpsPos, st.last).1 && Drain(env, d).last == fix2;
      assert st1.stored == st.stored;
    }
  }

  /** A frame is its header read, then the rest of the turn after the header bytes. */
  lemma FrameUnfold(env: Env, st: State, header: Option<Header>, past: State, r: State)
    requires Fits(env, st) && header == FrameHeader(env.layout, env.stream, st.blePos)
    requires past == st.(blePos := st.blePos + |ReadAt(env.stream, st.blePos, COMBINED_HEADER_LENGTH - 4)|)
    requires r == AfterHeader(env, past, header)
    ensures r == Frame(env, st)
  {
  }

  /** A frame whose header parses is the end of a turn over the device blocks that follow it. */
  lemma FrameHandles(env: Env, st: State, h: Header)
    requires Fits(env, st)
    requires FrameHeader(env.layout, env.stream, st.blePos) == Some(h)
    ensures var q := st.blePos + |ReadAt(env.stream, st.blePos, COMBINED_HEADER_LENGTH - 4)|;
            var blocks := ReadBlocks(env.stream, q, h.nMac);
            Frame(env, st) == Handle(env, st.(blePos := blocks.1), h, Present(blocks.0))
  {
    var q := st.blePos + |ReadAt(env.stream, st.blePos, COMBINED_HEADER_LENGTH - 4)|;
    var blocks := ReadBlocks(env.stream, q, h.nMac);
    var st0 := st.(blePos := q);
    assert Frame(env, st) == AfterHeader(env, st0, Some(h));
    assert AfterHeader(env, st0, Some(h)) == Handle(env, st.(blePos := blocks.1), h, Present(blocks.0));
  }

  /** The end of a turn stores and counts the frame when nothing raises and the database accepts it. */
  lemma HandleStores(env: Env, st: State, h: Header, devices: seq<Device>)
    requires Fits(env, st) && devices != []
    ensures var d := Drain(env, st);
            var fix2 := Drain(env, d).last;
            var doc := MakeDocument(h, devices, fix2);
            var r := Handle(env, st, h, devices);
            !FormatRaises(d.last) && env.accepts(doc) && (!env.notify || !FormatRaises(fix2)) ==>
              r.stored == st.stored + [doc] && r.processed == st.processed + 1
  {
    var d := Drain(env, st);
    var sr := Store(env, d, h, devices);
    if !FormatRaises(d.last) && env.accepts(MakeDocument(h, devices, Drain(env, d).last))
       && (!env.notify || !FormatRaises(Drain(env, d).last))
    {
      assert sr.0.last == Drain(env, d).last;
      assert sr.1 == Stored(true);
    }
  }

  /** The tracker object: the inherited BLE receiver, the GPS port, the database and the queue. */
  class CombinedTracker {
    const ble: Receiver
    /** Every line the GPS port delivers, in order, all taken as already waiting. */
    const gpsLines: seq<GpsLine>
    var gpsPos: nat
    /** `last_gps_data` */
    var lastGps: Option<Fix>
    /** Which documents `insert_one` accepts. */
    const accepts: Document -> bool
    /** The documents inserted so far. */
    var collection: seq<Document>
    /** `buffers_procesados` */
    var buffersProcessed: nat
    /** The queue of the notification override; `null` for a plain `CombinedTracker`. */
    const queue: MessageQueue?
    const layout: HeaderLayout

    ghost function Environment(): Env
    {
      Env(ble.stream, gpsLines, accepts, queue != null, layout)
    }

    ghost function Snapshot(): State
      reads this, ble, queue
    {
      State(ble.pos, gpsPos, lastGps, collection, if queue == null then [] else queue.items,
            buffersProcessed)
    }

    ghost predicate Valid()
      reads this, ble
    {
      ble.Valid() && gpsPos <= |gpsLines|
    }

    constructor (stream: seq<byte>, gpsLines: seq<GpsLine>, accepts: Document -> bool,
                 queue: MessageQueue?, layout: HeaderLayout)
      ensures Valid() && fresh(ble)
      ensures ble.stream == stream && this.gpsLines == gpsLines && this.accepts == accepts
      ensures this.queue == queue && this.layout == layout
      ensures gpsPos == 0 && lastGps == None && collection == [] && buffersProcessed == 0
      ensures ble.pos == 0
    {
      ble := new Receiver(stream);
      this.gpsLines := gpsLines;
      gpsPos := 0;
      lastGps := None;
      this.accepts := accepts;
      collection := [];
      buffersProcessed := 0;
      this.queue := queue;
      this.layout := layout;
    }

    /** `_parse_gps`: drain the waiting GPS lines; returns the retained fix. */
    method ParseGps() returns (fix: Option<Fix>)
      requires Valid()
      modifies this`gpsPos, this`lastGps
      ensures Valid()
      ensures (gpsPos, lastGps) == DrainGps(gpsLines, old(gpsPos), old(lastGps))
      ensures fix == lastGps
    {
      while gpsPos < |gpsLines|
        invariant gpsPos <= |gpsLines|
        invariant DrainGps(gpsLines, gpsPos, lastGps) == DrainGps(gpsLines, old(gpsPos), old(lastGps))
        decreases |gpsLines| - gpsPos
      {
        var line := gpsLines[gpsPos];
        gpsPos := gpsPos + 1;
        if IsRmc(line) {
          if line.parsed.None? {
            return lastGps;
          }
          if line.parsed.value.status == 'A' {
            lastGps := Some(StoredFix(line.parsed.value));
            return lastGps;
          }
        }
      }
      fix := lastGps;
    }

    /** `_store_buffer`, with the notification override when a queue is attached. */
    method StoreBuffer(h: Header, devices: seq<Device>) returns (outcome: StoreOutcome)
      requires Valid()
      modifies this`gpsPos, this`lastGps, this`collection, queue
      ensures Valid()
      ensures (Snapshot(), outcome) == Store(Environment(), old(Snapshot()), h, devices)
    {
      var gps := ParseGps();
      var doc := MakeDocument(h, devices, gps);
      if !accepts(doc) {
        return Stored(false);
      }
      collection := collection + [doc];
      if queue == null {
        return Stored(true);
      }
      var n := Compose(h, devices, lastGps);
      if n.Err? {
        return Raised;
      }
      queue.Put(n.value);
      outcome := Stored(true);
    }

    /**
     * The device reads of one frame: `n` blocks of `DEVICE_LENGTH` bytes, keeping, in
     * order, the devices that parse.
     */
    method ReadDevices(n: nat) returns (devices: seq<Device>)
      requires Valid()
      modifies ble`pos
      ensures Valid()
      ensures devices == Present(ReadBlocks(ble.stream, old(ble.pos), n).0)
      ensures ble.pos == ReadBlocks(ble.stream, old(ble.pos), n).1
    {
      ghost var q := ble.pos;
      ghost var blocks: seq<Option<Device>> := [];
      devices := [];
      var i := 0;
      while i < n
        invariant ble.Valid() && i <= n
        invariant blocks == ReadBlocks(ble.stream, q, i).0 && ble.pos == ReadBlocks(ble.stream, q, i).1
        invariant devices == Present(blocks)
      {
        var data := ble.ReadBytes(DEVICE_LENGTH);
        var device := ParseDevice(data);
        ReadBlocksNext(ble.stream, q, i);
        PresentSnoc(blocks, device);
        blocks := blocks + [device];
        if device.Some? {
          devices := devices + [device.value];
        }
        i := i + 1;
      }
    }

    /** The end of a turn, once the devices are read. */
    method HandleDevices(h: Header, devices: seq<Device>)
      requires Valid()
      modifies this`gpsPos, this`lastGps, this`collection, this`buffersProcessed, queue
      ensures Valid()
      ensures Snapshot() == Handle(Environment(), old(Snapshot()), h, devices)
    {
      if devices == [] {
        return;
      }
      var gps := ParseGps();
      if FormatRaises(gps) {
        return;
      }
      var outcome := StoreBuffer(h, devices);
      if outcome == Stored(true) {
        buffersProcessed := buffersProcessed + 1;
      }
    }

    /** One turn of the loop after the magic has been found. */
    method ReceiveFrame()
      requires Valid()
      modifies this`gpsPos, this`lastGps, this`collection, this`buffersProcessed, ble`pos, queue
      ensures Valid()
      ensures Snapshot() == Frame(Environment(), old(Snapshot()))
    {
      var header := FrameHeader(layout, ble.stream, ble.pos);
      var rest := ble.ReadBytes(COMBINED_HEADER_LENGTH - 4);
      ghost var past := Snapshot();
      assert past == old(Snapshot()).(blePos := old(Snapshot()).blePos + |rest|);
      ReadAndHandle(header);
      FrameUnfold(Environment(), old(Snapshot()), header, past, Snapshot());
    }

    /** The rest of a turn once the header bytes are read: the blocks, then the devices that parse. */
    method ReadAndHandle(header: Option<Header>)
      requires Valid()
      modifies this`gpsPos, this`lastGps, this`collection, this`buffersProcessed, ble`pos, queue
      ensures Valid()
      ensures Snapshot() == AfterHeader(Environment(), old(Snapshot()), header)
    {
      if header.None? {
        return;
      }
      var devices := ReadDevices(header.value.nMac);
      HandleDevices(header.value, devices);
    }

    /** `receive_messages`, until the BLE stream is used up. */
    method ReceiveMessages()
      requires Valid()
      modifies this`gpsPos, this`lastGps, this`collection, this`buffersProcessed, ble`pos, queue
      ensures Valid()
      ensures Snapshot() == Run(Environment(), old(Snapshot()))
    {
      while true
        invariant Valid()
        invariant Run(Environment(), Snapshot()) == Run(Environment(), old(Snapshot()))
        decreases |ble.stream| - ble.pos
      {
        var _ := ParseGps();
        var found := ble.Synchronize();
        if !found {
          return;
        }
        ReceiveFrame();
      }
    }
  }
}
