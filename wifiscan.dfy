/**
 * The network survey of `check_nets.py`: list the wireless interfaces `iwconfig`
 * reports, scan with each, read every cell of the scan output into a record keyed
 * `<interface>_<cell>_<address>`, and rank the records by signal strength.
 *
 * The commands are parameters: the `iwconfig` output is given as text and each scan
 * as a function from interface name to what the command gave back.
 *
 * The parser keeps the dict of the cell it is reading in `current_network`. When a
 * `Cell` line does not match the cell pattern, that dict has just been stored and stays
 * current, so later lines write through into the stored record; `Cursor.shared` records
 * that aliasing, and every update of the current record is then copied into the store.
 */
module WifiScan {
  import opened Common
  import opened Text
  import opened Patterns

  /**
   * One network record: each key the parser may set, `None` while it is not set.
   * Frequencies and bit rates keep the decimal text Python hands to `float`; the
   * quality is the exact quotient `value / max * 100`.
   */
  datatype Network = Network(
    interface: Option<string>,
    address: Option<string>,
    essid: Option<string>,
    channel: Option<nat>,
    frequency: Option<string>,
    quality: Option<real>,
    qualityRaw: Option<string>,
    signal: Option<int>,
    encryption: Option<bool>,
    securityProtocols: Option<seq<string>>,
    bitRates: Option<seq<string>>)

  /** The empty dict `{}`. */
  const NO_KEYS: Network := Network(None, None, None, None, None, None, None, None, None, None, None)

  /** A dict is true when it holds a key. */
  predicate HasKeys(n: Network) { n != NO_KEYS }

  /** The key a matched `Cell` line files its record under. */
  function CellId(iface: string, num: string, address: string): string
  {
    iface + "_" + num + "_" + address
  }

  /**
   * A stored record: it has keys, it names its interface and address, and its key
   * begins with the interface and ends with the address.
   */
  ghost predicate Filed(k: string, n: Network)
  {
    HasKeys(n) && n.interface.Some? && n.address.Some?
    && StartsWith(k, n.interface.value + "_") && EndsWith(k, "_" + n.address.value)
  }

  /** Every record of the store is filed under its key. */
  ghost predicate Catalogued(m: OrderedMap<Network>)
  {
    m.Valid() && forall k :: k in m.entries ==> Filed(k, m.entries[k])
  }

  /** The parser's variables while it reads one interface's output. */
  datatype Cursor = Cursor(cell: Option<string>, net: Network, shared: bool, networks: OrderedMap<Network>)

  /** When `shared`, the current record is the one stored under the current cell. */
  ghost predicate Coherent(c: Cursor)
  {
    c.networks.Valid()
    && (c.shared ==> c.cell.Some? && c.cell.value in c.networks.entries && c.networks.entries[c.cell.value] == c.net)
  }

  /** The invariant of the parse of interface `iface`. */
  ghost predicate Good(iface: string, c: Cursor)
  {
    Coherent(c) && Catalogued(c.networks)
    && (c.cell.Some? ==> c.net.interface == Some(iface) && Filed(c.cell.value, c.net))
  }

  /** The `if`/`elif` chain: which branch a stripped line takes. */
  datatype LineKind =
    | CellLine | EssidLine | ChannelLine | FrequencyLine | QualityLine
    | EncryptionLine | IeLine | RatesLine | OtherLine

  function Kind(line: string): LineKind
  {
    if StartsWith(line, "Cell ") then CellLine
    else if Contains(line, "ESSID:") then EssidLine
    else if Contains(line, "Channel:") then ChannelLine
    else if Contains(line, "Frequency:") then FrequencyLine
    else if Contains(line, "Quality=") then QualityLine
    else if Contains(line, "Encryption key:") then EncryptionLine
    else if Contains(line, "IE:") then IeLine
    else if Contains(line, "Bit Rates:") then RatesLine
    else OtherLine
  }

  /** Which keys of the current record a branch may change; the rest stay. */
  predicate OnlyTouches(k: LineKind, a: Network, b: Network)
  {
    match k
    case CellLine => true
    case EssidLine => b == a.(essid := b.essid)
    case ChannelLine => b == a.(channel := b.channel)
    case FrequencyLine => b == a.(frequency := b.frequency)
    case QualityLine => b == a.(quality := b.quality, qualityRaw := b.qualityRaw, signal := b.signal)
    case EncryptionLine => b == a.(encryption := b.encryption)
    case IeLine => b == a.(securityProtocols := b.securityProtocols)
    case RatesLine => b == a.(bitRates := b.bitRates)
    case OtherLine => b == a
  }

  /** Writing the current record, and through to the store when it is the stored one. */
  function Update(c: Cursor, n: Network): (r: Cursor)
    requires Coherent(c)
    ensures Coherent(r) && r.cell == c.cell && r.net == n && r.shared == c.shared
    ensures r.networks.keys == c.networks.keys
    ensures c.shared ==> r.networks.entries == c.networks.entries[c.cell.value := n]
    ensures !c.shared ==> r.networks == c.networks
  {
    Cursor(c.cell, n, c.shared, if c.shared then c.networks.Put(c.cell.value, n) else c.networks)
  }

  /** "Save previous network if it exists": a current cell and a record with keys. */
  function Save(c: Cursor): (r: OrderedMap<Network>)
    requires c.networks.Valid()
    ensures r.Valid()
    ensures Catalogued(c.networks) && (c.cell.Some? ==> Filed(c.cell.value, c.net)) ==> Catalogued(r)
    ensures r != c.networks ==> c.cell.Some? && HasKeys(c.net)
    ensures c.cell.Some? && HasKeys(c.net) ==>
              r.entries == c.networks.entries[c.cell.value := c.net]
    ensures forall k :: k in r.entries && k !in c.networks.entries ==> c.cell == Some(k)
  {
    if c.cell.Some? && HasKeys(c.net) then c.networks.Put(c.cell.value, c.net) else c.networks
  }

  /** A `Cell` line: store the current record, then start a new one if the line matches. */
  function OpenCell(iface: string, line: string, c: Cursor): Cursor
    requires Coherent(c)
  {
    var saved := Save(c);
    match Search(line, CellAt, 2)
    case Some(g) => Cursor(Some(CellId(iface, g[0], g[1])), NO_KEYS.(interface := Some(iface), address := Some(g[1])), false, saved)
    case None => Cursor(c.cell, c.net, c.shared || (c.cell.Some? && HasKeys(c.net)), saved)
  }

  /** `f"{quality_value}/{quality_max}"` */
  function QualityRaw(value: nat, max: nat): string
  {
    NatToString(value) + "/" + NatToString(max)
  }

  /** A quality line whose maximum is 0: the division raises `ZeroDivisionError`. */
  predicate ZeroMax(line: string)
  {
    var q := Search(line, QualityAt, 2);
    q.Some? && DigitsValue(q.value[1]) == 0
  }

  /**
   * What a line other than a `Cell` line does to the current record. `None` is the
   * `ZeroDivisionError` a quality line with maximum 0 raises.
   */
  function Edit(line: string, net: Network): (r: Option<Network>)
    requires Kind(line) != CellLine
    ensures r.None? <==> Kind(line) == QualityLine && ZeroMax(line)
    ensures r.Some? ==> OnlyTouches(Kind(line), net, r.value)
  {
    match Kind(line)
    case EssidLine =>
      Some(match Search(line, EssidAt, 1)
        case Some(g) => net.(essid := Some(g[0]))
        case None => net)
    case ChannelLine =>
      Some(match Search(line, ChannelAt, 1)
        case Some(g) => net.(channel := Some(DigitsValue(g[0])))
        case None => net)
    case FrequencyLine =>
      Some(match Search(line, FrequencyAt, 1)
        case Some(g) => net.(frequency := Some(g[0]))
        case None => net)
    case QualityLine =>
      var q := Search(line, QualityAt, 2);
      if q.Some? && DigitsValue(q.value[1]) == 0 then None
      else
        var rated :=
          if q.Some? then
            var v, m := DigitsValue(q.value[0]), DigitsValue(q.value[1]);
            net.(quality := Some(Percent(v, m)), qualityRaw := Some(QualityRaw(v, m)))
          else net;
        Some(match Search(line, SignalAt, 1)
          case Some(g) => rated.(signal := Some(SignedValue(g[0])))
          case None => rated)
    case EncryptionLine =>
      Some(match Search(line, EncryptionAt, 1)
        case Some(g) => net.(encryption := Some(g[0] == "on"))
        case None => net)
    case IeLine =>
      var before := if net.securityProtocols.Some? then net.securityProtocols.value else [];
      Some(net.(securityProtocols := Some(if Contains(line, "WPA") then before + [line] else before)))
    case RatesLine =>
      var rates := FindAll(line, RateAt, 0);
      if rates == [] then Some(net)
      else
        var before := if net.bitRates.Some? then net.bitRates.value else [];
        Some(net.(bitRates := Some(before + rates)))
    case OtherLine => Some(net)
  }

  /**
   * One stripped line of scan output: a `Cell` line opens a cell, any other line edits
   * the current record (and, through the alias, the stored one). `None` when the
   * edit raises.
   */
  function Step(iface: string, line: string, c: Cursor): (r: Option<Cursor>)
    requires Coherent(c)
    ensures r.Some? ==> Coherent(r.value)
  {
    if Kind(line) == CellLine then Some(OpenCell(iface, line, c))
    else match Edit(line, c.net)
      case None => None
      case Some(n) => Some(Update(c, n))
  }

  /** Encryption is `True` exactly when the first `Encryption key:` that matches reads `on`. */
  lemma EncryptionReadsOn(line: string, net: Network)
    requires Kind(line) == EncryptionLine
    ensures var m := SearchFrom(line, EncryptionAt, 0);
            (m.Some? ==> Edit(line, net) == Some(net.(encryption := Some(LitAt(line, m.value.0 + 15, "on")))))
            && (m.None? ==> Edit(line, net) == Some(net))
  {
    var m := SearchFrom(line, EncryptionAt, 0);
    if m.Some? {
      var p := m.value.0;
      if LitAt(line, p + 15, "on") {
        assert m.value.1.groups == ["on"];
      } else {
        assert m.value.1.groups == ["off"];
        assert "off" != "on";
      }
    }
  }

  /**
   * An `IE:` line makes sure the record has a protocol list, and appends the line to it
   * exactly when it mentions WPA; what was listed before stays.
   */
  lemma IeLineProtocols(line: string, net: Network)
    requires Kind(line) == IeLine
    ensures var before := if net.securityProtocols.Some? then net.securityProtocols.value else [];
            var after := Edit(line, net).value.securityProtocols;
            after.Some? && |after.value| == |before| + (if Contains(line, "WPA") then 1 else 0)
            && after.value[..|before|] == before
            && (Contains(line, "WPA") ==> after.value[|before|] == line)
  {
  }

  /** Bit rates accumulate: two rate lines append their rates in order. */
  lemma RatesAccumulate(first: string, second: string, net: Network)
    requires Kind(first) == RatesLine && Kind(second) == RatesLine
    requires FindAll(first, RateAt, 0) != [] && FindAll(second, RateAt, 0) != []
    ensures var before := if net.bitRates.Some? then net.bitRates.value else [];
            Edit(second, Edit(first, net).value).value.bitRates
              == Some(before + FindAll(first, RateAt, 0) + FindAll(second, RateAt, 0))
  {
  }

  /** Opening a cell files the new record under the key the line names. */
  lemma OpenCellKeepsGood(iface: string, line: string, c: Cursor)
    requires Good(iface, c)
    ensures Good(iface, OpenCell(iface, line, c))
  {
    var saved := Save(c);
    assert Catalogued(saved);
    match Search(line, CellAt, 2)
    case Some(g) =>
      var num, address := g[0], g[1];
      var k := CellId(iface, num, address);
      var net := NO_KEYS.(interface := Some(iface), address := Some(address));
      assert OpenCell(iface, line, c) == Cursor(Some(k), net, false, saved);
      CellIdFiled(iface, num, address);
    case None =>
  }

  /** A cell's key begins with its interface and ends with its address. */
  lemma CellIdFiled(iface: string, num: string, address: string)
    ensures StartsWith(CellId(iface, num, address), iface + "_")
    ensures EndsWith(CellId(iface, num, address), "_" + address)
  {
    var k := CellId(iface, num, address);
    assert k == (iface + "_") + (num + "_" + address);
    assert k == (iface + "_" + num) + ("_" + address);
    assert k[..|iface + "_"|] == iface + "_";
    assert k[|k| - |"_" + address|..] == "_" + address;
  }

  /**
   * A well-formed `Cell` line files the record read so far, if any, and opens a fresh
   * record naming the interface and the address under `<interface>_<cell>_<address>`.
   */
  lemma CellLineOpensRecord(iface: string, num: string, address: string, c: Cursor)
    requires Coherent(c)
    requires num != [] && AllDigits(num)
    requires address != [] && forall k :: 0 <= k < |address| ==> IsAddressChar(address[k])
    ensures var line := "Cell " + num + " - Address: " + address;
            var r := Step(iface, line, c);
            r.Some? && r.value.cell == Some(CellId(iface, num, address))
            && r.value.net == NO_KEYS.(interface := Some(iface), address := Some(address))
            && !r.value.shared && r.value.networks == Save(c)
  {
    var line := "Cell " + num + " - Address: " + address;
    var d := 5 + |num|;
    assert line[..5] == "Cell ";
    assert line[5..d] == num;
    assert line[d..d + 12] == " - Address: ";
    assert line[d + 12..] == address;
    assert DigitRun(line, 5) == d by {
      assert line[d] == ' ';
      DigitRunOver(line, 5, d);
    }
    assert AddressRun(line, d + 12) == |line| by {
      forall k | d + 12 <= k < |line| ensures IsAddressChar(line[k]) {
        assert line[k] == address[k - (d + 12)];
      }
      AddressRunToEnd(line, d + 12);
    }
    assert LitAt(line, 0, "Cell ") && LitAt(line, d, " - Address: ");
    assert DigitsAt(line, 5) == Some((num, d));
    assert line[d + 12..|line|] == address;
    assert CellAt(line, 0) == Some(Match([num, address], |line|));
    assert Kind(line) == CellLine;
  }

  /**
   * Only a `Cell` line adds a record to the store; any other line at most rewrites the
   * stored record it aliases. A `Cell` line that does not match keeps the cell current.
   */
  lemma StepStoresOnlyAtCell(iface: string, line: string, c: Cursor)
    requires Coherent(c) && Step(iface, line, c).Some?
    ensures var r := Step(iface, line, c).value;
            Kind(line) != CellLine ==>
              (r.networks.keys == c.networks.keys && r.cell == c.cell
               && (c.shared ==> r.networks.entries == c.networks.entries[c.cell.value := r.net])
               && (!c.shared ==> r.networks == c.networks))
    ensures var r := Step(iface, line, c).value;
            Kind(line) == CellLine ==>
              (r.networks == Save(c)
               && (Search(line, CellAt, 2).None? ==> r.cell == c.cell && r.net == c.net))
  {
  }

  /** A step keeps the parse invariant. */
  lemma StepKeepsGood(iface: string, line: string, c: Cursor)
    requires Good(iface, c) && Step(iface, line, c).Some?
    ensures Good(iface, Step(iface, line, c).value)
  {
    if Kind(line) == CellLine {
      OpenCellKeepsGood(iface, line, c);
    } else {
      var n := Edit(line, c.net).value;
      assert n.interface == c.net.interface && n.address == c.net.address;
    }
  }

  /** Every line stripped of surrounding whitespace. */
  function StripAll(lines: seq<string>): (r: seq<string>)
    ensures |r| == |lines|
  {
    if lines == [] then [] else [Strip(lines[0])] + StripAll(lines[1..])
  }

  lemma {:induction false} StripAllAt(lines: seq<string>, i: nat)
    requires i < |lines|
    ensures StripAll(lines)[i] == Strip(lines[i])
    decreases i
  {
    if i > 0 {
      StripAllAt(lines[1..], i - 1);
    }
  }

  /**
   * The rest of one interface's stripped output lines from cursor `c`: step line by
   * line and save the last record; a `ZeroDivisionError` keeps what was stored before it.
   */
  function ParseLines(iface: string, lines: seq<string>, c: Cursor): (r: OrderedMap<Network>)
    requires Good(iface, c)
    ensures Catalogued(r)
    decreases |lines|
  {
    if lines == [] then Save(c)
    else
      match Step(iface, lines[0], c)
      case None => c.networks
      case Some(next) =>
        StepKeepsGood(iface, lines[0], c);
        ParseLines(iface, lines[1..], next)
  }

  /** What running one scan command gave: its exit status and output, or an exception. */
  datatype ScanOutcome = Completed(returnCode: int, stdout: string) | Raised

  /** The store after scanning with one interface. */
  function ScanInterface(iface: string, outcome: ScanOutcome, networks: OrderedMap<Network>): (r: OrderedMap<Network>)
    requires Catalogued(networks)
    ensures Catalogued(r)
    ensures outcome.Raised? || outcome.returnCode != 0 ==> r == networks
  {
    match outcome
    case Raised => networks
    case Completed(code, out) =>
      if code != 0 then networks
      else ParseLines(iface, StripAll(Split(out, '\n')), Cursor(None, NO_KEYS, false, networks))
  }

  /** The store after scanning with each interface in turn. */
  function ScanAll(ifaces: seq<string>, scan: string -> ScanOutcome, networks: OrderedMap<Network>): (r: OrderedMap<Network>)
    requires Catalogued(networks)
    ensures Catalogued(r)
    decreases |ifaces|
  {
    if ifaces == [] then networks
    else ScanAll(ifaces[1..], scan, ScanInterface(ifaces[0], scan(ifaces[0]), networks))
  }

  /**
   * The store grows: the old keys keep their order and stay, and records not filed
   * under interface `iface` are left as they were.
   */
  ghost predicate Extends(iface: string, before: OrderedMap<Network>, after: OrderedMap<Network>)
  {
    |before.keys| <= |after.keys| && after.keys[..|before.keys|] == before.keys
    && (forall k :: k in before.entries ==> k in after.entries)
    && forall k :: k in before.entries && !StartsWith(k, iface + "_") ==> after.entries[k] == before.entries[k]
  }

  lemma ExtendsTrans(iface: string, a: OrderedMap<Network>, b: OrderedMap<Network>, c: OrderedMap<Network>)
    requires Extends(iface, a, b) && Extends(iface, b, c)
    ensures Extends(iface, a, c)
  {
    assert c.keys[..|a.keys|] == c.keys[..|b.keys|][..|a.keys|];
  }

  /** A step writes only to the record of the current cell, and adds a key only on a `Cell` line. */
  lemma StepExtends(iface: string, line: string, c: Cursor)
    requires Good(iface, c) && Step(iface, line, c).Some?
    ensures Extends(iface, c.networks, Step(iface, line, c).value.networks)
  {
    var r := Step(iface, line, c).value;
    if c.cell.Some? {
      assert StartsWith(c.cell.value, iface + "_");
    }
    assert r.networks.keys[..|c.networks.keys|] == c.networks.keys;
  }

  /** Saving the last record only grows the store, under `iface`. */
  lemma SaveExtends(iface: string, c: Cursor)
    requires Good(iface, c)
    ensures Extends(iface, c.networks, Save(c))
  {
    if c.cell.Some? {
      assert StartsWith(c.cell.value, iface + "_");
    }
    assert Save(c).keys[..|c.networks.keys|] == c.networks.keys;
  }

  /** How the rest of the output from line `i` on unfolds into its first step. */
  lemma ParseLinesNext(iface: string, lines: seq<string>, i: nat, c: Cursor)
    requires Good(iface, c) && i < |lines|
    ensures Step(iface, lines[i], c).None? ==> ParseLines(iface, lines[i..], c) == c.networks
    ensures Step(iface, lines[i], c).Some? ==>
              Good(iface, Step(iface, lines[i], c).value)
              && ParseLines(iface, lines[i..], c) == ParseLines(iface, lines[i + 1..], Step(iface, lines[i], c).value)
  {
    assert lines[i..][0] == lines[i] && lines[i..][1..] == lines[i + 1..];
    if Step(iface, lines[i], c).Some? {
      StepKeepsGood(iface, lines[i], c);
    }
  }

  /** Reading the rest of the output only grows the store, and only under `iface`. */
  lemma {:induction false} ParseLinesExtends(iface: string, lines: seq<string>, c: Cursor)
    requires Good(iface, c)
    ensures Extends(iface, c.networks, ParseLines(iface, lines, c))
    decreases |lines|
  {
    if lines == [] {
      SaveExtends(iface, c);
    } else {
      ParseLinesNext(iface, lines, 0, c);
      assert lines[0..] == lines;
      var step := Step(iface, lines[0], c);
      if step.Some? {
        var next := step.value;
        StepExtends(iface, lines[0], c);
        ParseLinesExtends(iface, lines[1..], next);
        ExtendsTrans(iface, c.networks, next.networks, ParseLines(iface, lines[1..], next));
      }
    }
  }

  /** Scanning with one interface never loses or changes a record another interface filed. */
  lemma ScanKeepsOtherInterfaces(iface: string, outcome: ScanOutcome, networks: OrderedMap<Network>)
    requires Catalogued(networks)
    ensures Extends(iface, networks, ScanInterface(iface, outcome, networks))
  {
    if outcome.Completed? && outcome.returnCode == 0 {
      ParseLinesExtends(iface, StripAll(Split(outcome.stdout, '\n')), Cursor(None, NO_KEYS, false, networks));
    }
  }

  /** The `elif` branches of the parse loop, the dict updates written as assignments. */
  method EditRecord(line: string, current: Network) returns (r: Option<Network>)
    requires Kind(line) != CellLine
    ensures r == Edit(line, current)
  {
    var net := current;
    if Contains(line, "ESSID:") {
      var m := Search(line, EssidAt, 1);
      if m.Some? {
        net := net.(essid := Some(m.value[0]));
      }
    } else if Contains(line, "Channel:") {
      var m := Search(line, ChannelAt, 1);
      if m.Some? {
        net := net.(channel := Some(DigitsValue(m.value[0])));
      }
    } else if Contains(line, "Frequency:") {
      var m := Search(line, FrequencyAt, 1);
      if m.Some? {
        net := net.(frequency := Some(m.value[0]));
      }
    } else if Contains(line, "Quality=") {
      var m := Search(line, QualityAt, 2);
      if m.Some? {
        var value, max := DigitsValue(m.value[0]), DigitsValue(m.value[1]);
        if max == 0 {
          return None;
        }
        net := net.(quality := Some(Percent(value, max)), qualityRaw := Some(QualityRaw(value, max)));
      }
      var s := Search(line, SignalAt, 1);
      if s.Some? {
        net := net.(signal := Some(SignedValue(s.value[0])));
      }
    } else if Contains(line, "Encryption key:") {
      var m := Search(line, EncryptionAt, 1);
      if m.Some? {
        net := net.(encryption := Some(m.value[0] == "on"));
      }
    } else if Contains(line, "IE:") {
      if net.securityProtocols.None? {
        net := net.(securityProtocols := Some([]));
      }
      if Contains(line, "WPA") {
        net := net.(securityProtocols := Some(net.securityProtocols.value + [line]));
      }
    } else if Contains(line, "Bit Rates:") {
      var rates := FindAll(line, RateAt, 0);
      if rates != [] {
        if net.bitRates.None? {
          net := net.(bitRates := Some([]));
        }
        net := net.(bitRates := Some(net.bitRates.value + rates));
      }
    }
    r := Some(net);
  }

  /**
   * One line of the parse loop: a `Cell` line stores the current record and opens the
   * next; any other line edits the current record, which is also the stored one when
   * `shared`. `None` when the edit raises.
   */
  method ParseLine(iface: string, line: string, c: Cursor) returns (next: Option<Cursor>)
    requires Coherent(c)
    ensures next == Step(iface, line, c)
  {
    var cell, net, shared, networks := c.cell, c.net, c.shared, c.networks;
    if StartsWith(line, "Cell ") {
      if cell.Some? && HasKeys(net) {
        networks := networks.Put(cell.value, net);
        shared := true;
      }
      var m := Search(line, CellAt, 2);
      if m.Some? {
        cell := Some(CellId(iface, m.value[0], m.value[1]));
        net := NO_KEYS.(interface := Some(iface), address := Some(m.value[1]));
        shared := false;
      }
      return Some(Cursor(cell, net, shared, networks));
    }
    var edited := EditRecord(line, net);
    if edited.None? {
      return None;
    }
    net := edited.value;
    if shared {
      networks := networks.Put(cell.value, net);
    }
    next := Some(Cursor(cell, net, shared, networks));
  }

  /** The loop over one interface's output, inside its `try`. */
  method ParseOutput(iface: string, output: string, networks: OrderedMap<Network>) returns (result: OrderedMap<Network>)
    requires Catalogued(networks)
    ensures result == ParseLines(iface, StripAll(Split(output, '\n')), Cursor(None, NO_KEYS, false, networks))
  {
    var lines := Split(output, '\n');
    ghost var stripped := StripAll(lines);
    var cursor := Cursor(None, NO_KEYS, false, networks);
    ghost var start := cursor;
    var i := 0;
    while i < |lines|
      invariant 0 <= i <= |lines|
      invariant Good(iface, cursor)
      invariant ParseLines(iface, stripped[i..], cursor) == ParseLines(iface, stripped, start)
    {
      var line := Strip(lines[i]);
      StripAllAt(lines, i);
      ParseLinesNext(iface, stripped, i, cursor);
      var next := ParseLine(iface, line, cursor);
      if next.None? {
        return cursor.networks;
      }
      cursor := next.value;
      i := i + 1;
    }
    assert stripped[i..] == [];
    result := cursor.networks;
    if cursor.cell.Some? && HasKeys(cursor.net) {
      result := result.Put(cursor.cell.value, cursor.net);
    }
  }

  /** The interface named by one line of `iwconfig` output, if the line is a wireless one. */
  function Named(line: string): seq<string>
  {
    if !Contains(line, "IEEE 802.11") then []
    else match FirstWord(line)
      case Some(w) => [w]
      case None => []
  }

  /** The wireless interfaces, in the order `iwconfig` lists them. */
  function WirelessInterfaces(lines: seq<string>): (r: seq<string>)
    ensures forall w :: w in r ==> exists line :: line in lines && Contains(line, "IEEE 802.11") && FirstWord(line) == Some(w)
  {
    if lines == [] then []
    else WirelessInterfaces(lines[..|lines| - 1]) + Named(lines[|lines| - 1])
  }

  /** The number of lines that mention IEEE 802.11. */
  function WirelessLineCount(lines: seq<string>): nat
  {
    if lines == [] then 0
    else WirelessLineCount(lines[..|lines| - 1]) + if Contains(lines[|lines| - 1], "IEEE 802.11") then 1 else 0
  }

  /** A line that mentions IEEE 802.11 has a first word, so `split()[0]` never fails on it. */
  lemma WirelessLineHasWord(line: string)
    requires Contains(line, "IEEE 802.11")
    ensures FirstWord(line).Some?
  {
    var i := ContainsWitness(line, "IEEE 802.11");
    assert line[i] == line[i..i + 11][0] == 'I';
  }

  /** Every wireless line names exactly one interface. */
  lemma {:induction false} OneInterfacePerWirelessLine(lines: seq<string>)
    ensures |WirelessInterfaces(lines)| == WirelessLineCount(lines)
    decreases |lines|
  {
    if lines != [] {
      OneInterfacePerWirelessLine(lines[..|lines| - 1]);
      var last := lines[|lines| - 1];
      if Contains(last, "IEEE 802.11") {
        WirelessLineHasWord(last);
      }
    }
  }

  /**
   * The wireless line at index `i` names the interface listed after those of the
   * wireless lines before it: the list follows the lines, none skipped.
   */
  lemma InterfacesInLineOrder(lines: seq<string>, i: nat)
    requires i < |lines| && Contains(lines[i], "IEEE 802.11")
    ensures WirelessLineCount(lines[..i]) < |WirelessInterfaces(lines)|
    ensures Some(WirelessInterfaces(lines)[WirelessLineCount(lines[..i])]) == FirstWord(lines[i])
  {
    var upto := lines[..i + 1];
    assert upto[..i] == lines[..i];
    WirelessLineHasWord(lines[i]);
    OneInterfacePerWirelessLine(lines[..i]);
    assert WirelessInterfaces(upto) == WirelessInterfaces(lines[..i]) + [FirstWord(lines[i]).value];
    InterfacesPrefix(lines, i + 1);
  }

  /** The interfaces of the first `n` lines begin the interfaces of all of them. */
  lemma {:induction false} InterfacesPrefix(lines: seq<string>, n: nat)
    requires n <= |lines|
    ensures WirelessInterfaces(lines[..n]) <= WirelessInterfaces(lines)
    decreases |lines|
  {
    if n == |lines| {
      assert lines[..n] == lines;
    } else {
      var init := lines[..|lines| - 1];
      assert init[..n] == lines[..n];
      InterfacesPrefix(init, n);
    }
  }

  /** The loop that collects the interface names. */
  method ListInterfaces(iwconfigOutput: string) returns (interfaces: seq<string>)
    ensures interfaces == WirelessInterfaces(Split(iwconfigOutput, '\n'))
  {
    var lines := Split(iwconfigOutput, '\n');
    interfaces := [];
    var i := 0;
    while i < |lines|
      invariant 0 <= i <= |lines|
      invariant interfaces == WirelessInterfaces(lines[..i])
    {
      assert lines[..i + 1][..i] == lines[..i];
      var line := lines[i];
      if Contains(line, "IEEE 802.11") {
        WirelessLineHasWord(line);
        interfaces := interfaces + [FirstWord(line).value];
      }
      i := i + 1;
    }
    assert lines[..i] == lines;
  }

  /** `scan_networks`: every interface scanned in turn into one store. */
  method ScanNetworks(iwconfigOutput: string, scan: string -> ScanOutcome) returns (networks: OrderedMap<Network>)
    ensures networks == ScanAll(WirelessInterfaces(Split(iwconfigOutput, '\n')), scan, EmptyMap())
    ensures Catalogued(networks)
  {
    var interfaces := ListInterfaces(iwconfigOutput);
    networks := EmptyMap();
    var i := 0;
    while i < |interfaces|
      invariant 0 <= i <= |interfaces|
      invariant Catalogued(networks)
      invariant ScanAll(interfaces[i..], scan, networks) == ScanAll(interfaces, scan, EmptyMap())
    {
      var iface := interfaces[i];
      assert interfaces[i..][1..] == interfaces[i + 1..];
      var outcome := scan(iface);
      if outcome.Completed? && outcome.returnCode == 0 {
        networks := ParseOutput(iface, outcome.stdout, networks);
      }
      i := i + 1;
    }
  }

  /** `network.get('signal', 0)` */
  function SignalKey(n: Network): int
  {
    if n.signal.Some? then n.signal.value else 0
  }

  /** Puts `n` ahead of every record whose key is not above its own. */
  function Insert(n: Network, sorted: seq<Network>): (r: seq<Network>)
    ensures multiset(r) == multiset(sorted) + multiset{n}
    ensures |r| == |sorted| + 1
  {
    if sorted == [] || SignalKey(sorted[0]) <= SignalKey(n) then [n] + sorted
    else
      assert sorted == [sorted[0]] + sorted[1..];
      [sorted[0]] + Insert(n, sorted[1..])
  }

  /** `sorted(networks.values(), key=signal, reverse=True)` */
  function SortBySignal(networks: seq<Network>): (r: seq<Network>)
    ensures multiset(r) == multiset(networks)
  {
    if networks == [] then []
    else
      assert networks == [networks[0]] + networks[1..];
      Insert(networks[0], SortBySignal(networks[1..]))
  }

  ghost predicate Descending(s: seq<Network>)
  {
    forall i, j :: 0 <= i < j < |s| ==> SignalKey(s[i]) >= SignalKey(s[j])
  }

  /** The records of `s` whose signal key is `v`, in order. */
  function WithKey(s: seq<Network>, v: int): seq<Network>
  {
    if s == [] then [] else (if SignalKey(s[0]) == v then [s[0]] else []) + WithKey(s[1..], v)
  }

  lemma {:induction false} InsertDescending(n: Network, sorted: seq<Network>)
    requires Descending(sorted)
    ensures Descending(Insert(n, sorted))
    ensures Insert(n, sorted)[0] == n || Insert(n, sorted)[0] == sorted[0]
    decreases |sorted|
  {
    if !(sorted == [] || SignalKey(sorted[0]) <= SignalKey(n)) {
      InsertDescending(n, sorted[1..]);
      var r := Insert(n, sorted);
      var tail := Insert(n, sorted[1..]);
      assert r == [sorted[0]] + tail;
      forall i, j | 0 <= i < j < |r| ensures SignalKey(r[i]) >= SignalKey(r[j]) {
        if i == 0 {
          assert r[j] == tail[j - 1];
          assert r[j] in multiset(tail);
          assert r[j] == n || r[j] in sorted[1..];
        }
      }
    } else if sorted != [] {
      var r := Insert(n, sorted);
      assert r == [n] + sorted;
    }
  }

  /** The ranking puts stronger signals first, a missing signal counting as 0. */
  lemma {:induction false} SortDescending(networks: seq<Network>)
    ensures Descending(SortBySignal(networks))
    decreases |networks|
  {
    if networks != [] {
      SortDescending(networks[1..]);
      InsertDescending(networks[0], SortBySignal(networks[1..]));
    }
  }

  lemma WithKeyCons(x: Network, s: seq<Network>, v: int)
    ensures WithKey([x] + s, v) == (if SignalKey(x) == v then [x] else []) + WithKey(s, v)
  {
    assert ([x] + s)[0] == x && ([x] + s)[1..] == s;
  }

  lemma {:induction false} InsertWithKey(n: Network, sorted: seq<Network>, v: int)
    ensures WithKey(Insert(n, sorted), v) == (if SignalKey(n) == v then [n] else []) + WithKey(sorted, v)
    decreases |sorted|
  {
    if sorted == [] || SignalKey(sorted[0]) <= SignalKey(n) {
      WithKeyCons(n, sorted, v);
    } else {
      var head, tail := sorted[0], sorted[1..];
      InsertWithKey(n, tail, v);
      WithKeyCons(head, Insert(n, tail), v);
      WithKeyCons(head, tail, v);
      assert sorted == [head] + tail;
    }
  }

  /**
   * The ranking is stable: records with the same signal keep the order the store gave
   * them.
   */
  lemma {:induction false} SortStable(networks: seq<Network>, v: int)
    ensures WithKey(SortBySignal(networks), v) == WithKey(networks, v)
    decreases |networks|
  {
    if networks != [] {
      SortStable(networks[1..], v);
      InsertWithKey(networks[0], SortBySignal(networks[1..]), v);
    }
  }

  /** The console listing's order: the stored records ranked by signal. */
  function Ranked(networks: OrderedMap<Network>): (r: seq<Network>)
    requires networks.Valid()
    ensures multiset(r) == multiset(networks.Values())
  {
    SortBySignal(networks.Values())
  }
}
