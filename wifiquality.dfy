/**
 * The link-quality reading of `check_network.py`: walk the `iwconfig` output line by
 * line, open an entry for every interface line, fill in its quality and signal from
 * the lines that mention "Link Quality", and keep the interfaces that got any data.
 *
 * The output of `iwconfig` is a parameter. A quality maximum of 0 makes the division
 * raise `ZeroDivisionError`, which nothing catches: the whole reading fails (`Err`).
 */
module WifiQuality {
  import opened Common
  import opened Text
  import opened Patterns

  /** One interface's entry: the keys `quality` and `signal`, `None` while unset. */
  datatype LinkStats = LinkStats(quality: Option<real>, signal: Option<int>)

  /** The empty entry `{}`. */
  const NO_STATS: LinkStats := LinkStats(None, None)

  /** An entry is true when it holds a key. */
  predicate HasData(d: LinkStats) { d != NO_STATS }

  /** A line that names an interface: it does not start with a space and is not blank. */
  predicate IsHeader(line: string)
  {
    !StartsWith(line, " ") && !IsBlank(line)
  }

  /** The parser's variables: `current_interface` and `interfaces`. */
  datatype Reading = Reading(current: Option<string>, interfaces: OrderedMap<LinkStats>)

  /** The current interface always has an entry. */
  ghost predicate Tracked(r: Reading)
  {
    r.interfaces.Valid() && (r.current.Some? ==> r.current.value in r.interfaces.entries)
  }

  function Start(): (r: Reading)
    ensures Tracked(r) && r.current.None? && r.interfaces.keys == []
  {
    Reading(None, EmptyMap())
  }

  /** A "Link Quality" line whose maximum is 0. */
  predicate ZeroLinkMax(line: string)
  {
    var q := Search(line, LinkQualityAt, 2);
    q.Some? && DigitsValue(q.value[1]) == 0
  }

  /** What a "Link Quality" line does to the entry of the current interface. */
  function Reread(line: string, d: LinkStats): LinkStats
    requires !ZeroLinkMax(line)
  {
    var q := Search(line, LinkQualityAt, 2);
    var rated := if q.Some? then d.(quality := Some(Percent(DigitsValue(q.value[0]), DigitsValue(q.value[1])))) else d;
    match Search(line, SignalAt, 1)
    case Some(g) => rated.(signal := Some(SignedValue(g[0])))
    case None => rated
  }

  /** One line of output. */
  function Read(line: string, r: Reading): (res: Result<Reading>)
    requires Tracked(r)
    ensures res.Ok? ==> Tracked(res.value)
  {
    if IsHeader(line) then
      match FirstWord(line)
      case Some(name) => Ok(Reading(Some(name), r.interfaces.Put(name, NO_STATS)))
      case None => Ok(r)
    else if r.current.Some? && Contains(line, "Link Quality") then
      if ZeroLinkMax(line) then Err("ZeroDivisionError: division by zero")
      else
        var name := r.current.value;
        Ok(Reading(r.current, r.interfaces.Put(name, Reread(line, r.interfaces.entries[name]))))
    else Ok(r)
  }

  /** The remaining lines, read in turn; the first error ends the reading. */
  function ReadAll(lines: seq<string>, r: Reading): (res: Result<OrderedMap<LinkStats>>)
    requires Tracked(r)
    ensures res.Ok? ==> res.value.Valid()
    decreases |lines|
  {
    if lines == [] then Ok(r.interfaces)
    else
      match Read(lines[0], r)
      case Err(e) => Err(e)
      case Ok(next) => ReadAll(lines[1..], next)
  }

  /** The keys of `keys` whose entries hold data, in order. */
  function KeepKeys(keys: seq<string>, entries: map<string, LinkStats>): (r: seq<string>)
    requires forall k :: k in keys ==> k in entries
    ensures forall k :: k in r <==> k in keys && HasData(entries[k])
    ensures Distinct(keys) ==> Distinct(r)
  {
    if keys == [] then []
    else
      var rest := KeepKeys(keys[1..], entries);
      if HasData(entries[keys[0]]) then
        assert keys[0] !in keys[1..] ==> keys[0] !in rest;
        [keys[0]] + rest
      else rest
  }

  /** Filtering keeps the order: the kept keys of a concatenation are those of each part in turn. */
  lemma {:induction false} KeepKeysAppend(a: seq<string>, b: seq<string>, entries: map<string, LinkStats>)
    requires forall k :: k in a ==> k in entries
    requires forall k :: k in b ==> k in entries
    ensures KeepKeys(a + b, entries) == KeepKeys(a, entries) + KeepKeys(b, entries)
    decreases |a|
  {
    if a != [] {
      assert (a + b)[1..] == a[1..] + b;
      KeepKeysAppend(a[1..], b, entries);
    } else {
      assert a + b == b;
    }
  }

  /** One key is kept exactly when its entry holds data. */
  lemma KeepKeysSingle(k: string, entries: map<string, LinkStats>)
    requires k in entries
    ensures KeepKeys([k], entries) == if HasData(entries[k]) then [k] else []
  {
    assert [k][1..] == [];
  }

  /** `{k: v for k, v in interfaces.items() if v}`: exactly the entries that hold data. */
  function WithData(m: OrderedMap<LinkStats>): (r: OrderedMap<LinkStats>)
    requires m.Valid()
    ensures r.Valid()
    ensures forall k :: k in r.entries <==> k in m.entries && HasData(m.entries[k])
    ensures forall k :: k in r.entries ==> r.entries[k] == m.entries[k]
  {
    OrderedMap(KeepKeys(m.keys, m.entries), map k | k in m.entries && HasData(m.entries[k]) :: m.entries[k])
  }

  /** `get_wifi_quality` on the given `iwconfig` output. */
  function WifiQuality(output: string): Result<OrderedMap<LinkStats>>
  {
    match ReadAll(Split(output, '\n'), Start())
    case Ok(m) => Ok(WithData(m))
    case Err(e) => Err(e)
  }

  /** The loop of `get_wifi_quality`, the entry updates written as assignments. */
  method GetWifiQuality(output: string) returns (r: Result<OrderedMap<LinkStats>>)
    ensures r == WifiQuality(output)
  {
    var lines := Split(output, '\n');
    var current: Option<string> := None;
    var interfaces: OrderedMap<LinkStats> := EmptyMap();
    var i := 0;
    while i < |lines|
      invariant 0 <= i <= |lines|
      invariant Tracked(Reading(current, interfaces))
      invariant ReadAll(lines[i..], Reading(current, interfaces)) == ReadAll(lines, Start())
    {
      assert lines[i..][0] == lines[i] && lines[i..][1..] == lines[i + 1..];
      var next := ReadLine(lines[i], current, interfaces);
      if next.Err? {
        return Err(next.error);
      }
      current, interfaces := next.value.current, next.value.interfaces;
      i := i + 1;
    }
    assert lines[i..] == [];
    r := Ok(WithData(interfaces));
  }

  /** One turn of the loop of `get_wifi_quality`. */
  method ReadLine(line: string, current: Option<string>, interfaces: OrderedMap<LinkStats>)
    returns (next: Result<Reading>)
    requires Tracked(Reading(current, interfaces))
    ensures next == Read(line, Reading(current, interfaces))
  {
    var current', interfaces' := current, interfaces;
    if !StartsWith(line, " ") && !IsBlank(line) {
      var parts := FirstWord(line);
      if parts.Some? {
        current' := Some(parts.value);
        interfaces' := interfaces'.Put(parts.value, NO_STATS);
      }
    } else if current.Some? && Contains(line, "Link Quality") {
      var name := current.value;
      var entry := RereadEntry(line, interfaces.entries[name]);
      if entry.Err? {
        return Err(entry.error);
      }
      interfaces' := interfaces.Put(name, entry.value);
    }
    next := Ok(Reading(current', interfaces'));
  }

  /** The quality and signal updates of one "Link Quality" line to an interface's entry. */
  method RereadEntry(line: string, d: LinkStats) returns (res: Result<LinkStats>)
    ensures res.Err? <==> ZeroLinkMax(line)
    ensures res.Err? ==> res.error == "ZeroDivisionError: division by zero"
    ensures res.Ok? ==> !ZeroLinkMax(line) && res.value == Reread(line, d)
  {
    var entry := d;
    var q := Search(line, LinkQualityAt, 2);
    if q.Some? {
      var value, max := DigitsValue(q.value[0]), DigitsValue(q.value[1]);
      if max == 0 {
        return Err("ZeroDivisionError: division by zero");
      }
      entry := entry.(quality := Some(Percent(value, max)));
    }
    var s := Search(line, SignalAt, 1);
    if s.Some? {
      entry := entry.(signal := Some(SignedValue(s.value[0])));
    }
    res := Ok(entry);
  }

  /**
   * An interface line opens an entry for its first word, emptying an entry of the same
   * name, and leaves every other entry as it was.
   */
  lemma HeaderOpensEntry(line: string, r: Reading)
    requires Tracked(r) && IsHeader(line)
    ensures Read(line, r).Ok?
    ensures var next := Read(line, r).value;
            next.current == FirstWord(line)
            && next.interfaces.entries == r.interfaces.entries[FirstWord(line).value := NO_STATS]
  {
    BlankIffStripEmpty(line);
  }

  /** Lines before the first interface line change nothing. */
  lemma {:induction false} LinesBeforeFirstHeaderIgnored(pre: seq<string>, rest: seq<string>)
    requires forall l :: l in pre ==> !IsHeader(l)
    ensures ReadAll(pre + rest, Start()) == ReadAll(rest, Start())
    decreases |pre|
  {
    if pre == [] {
      assert pre + rest == rest;
    } else {
      assert (pre + rest)[0] == pre[0] && (pre + rest)[1..] == pre[1..] + rest;
      assert Read(pre[0], Start()) == Ok(Start());
      assert ReadAll(pre + rest, Start()) == ReadAll(pre[1..] + rest, Start());
      LinesBeforeFirstHeaderIgnored(pre[1..], rest);
    }
  }

  /**
   * Of two "Link Quality" lines for the same interface, the later quality reading wins,
   * and so does the later signal reading.
   */
  lemma LaterReadingOverwrites(first: string, second: string, r: Reading)
    requires Tracked(r) && r.current.Some?
    requires !IsHeader(first) && Contains(first, "Link Quality") && !ZeroLinkMax(first)
    requires !IsHeader(second) && Contains(second, "Link Quality") && !ZeroLinkMax(second)
    ensures ReadAll([first, second], r).Ok? && r.current.value in ReadAll([first, second], r).value.entries
    ensures var d := ReadAll([first, second], r).value.entries[r.current.value];
            var q := Search(second, LinkQualityAt, 2);
            var s := Search(second, SignalAt, 1);
            (q.Some? ==> d.quality == Some(Percent(DigitsValue(q.value[0]), DigitsValue(q.value[1]))))
            && (s.Some? ==> d.signal == Some(SignedValue(s.value[0])))
  {
    var r1 := Read(first, r).value;
    assert [first, second][1..] == [second];
    assert [second][1..] == [];
    assert ReadAll([first, second], r) == ReadAll([second], r1);
    assert ReadAll([second], r1) == Ok(Read(second, r1).value.interfaces);
  }

  /**
   * Once an interface line has been read, a "Link Quality" line with maximum 0 that is
   * not itself an interface line makes the reading fail.
   */
  lemma {:induction false} ZeroMaxRaises(lines: seq<string>, r: Reading, j: nat)
    requires Tracked(r) && r.current.Some?
    requires j < |lines| && !IsHeader(lines[j]) && Contains(lines[j], "Link Quality") && ZeroLinkMax(lines[j])
    ensures ReadAll(lines, r).Err?
    decreases |lines|
  {
    if j > 0 {
      match Read(lines[0], r)
      case Err(_) =>
      case Ok(next) =>
        if IsHeader(lines[0]) {
          BlankIffStripEmpty(lines[0]);
        }
        ZeroMaxRaises(lines[1..], next, j - 1);
    }
  }

  /** Every interface the reading keeps was named by an interface line (or was there before). */
  lemma {:induction false} KeysFromHeaders(lines: seq<string>, r: Reading, k: string)
    requires Tracked(r) && ReadAll(lines, r).Ok? && k in ReadAll(lines, r).value.entries
    ensures k in r.interfaces.entries || exists l :: l in lines && IsHeader(l) && FirstWord(l) == Some(k)
    decreases |lines|
  {
    if lines != [] {
      var next := Read(lines[0], r).value;
      KeysFromHeaders(lines[1..], next, k);
      if k in next.interfaces.entries && k !in r.interfaces.entries {
        assert IsHeader(lines[0]) && FirstWord(lines[0]) == Some(k);
      }
      if k !in next.interfaces.entries {
        var l :| l in lines[1..] && IsHeader(l) && FirstWord(l) == Some(k);
        assert l in lines;
      }
    }
  }

  /**
   * The result of `get_wifi_quality` holds exactly the interfaces with data, each named
   * by an interface line of the output.
   */
  lemma ResultNamesInterfacesWithData(output: string, k: string)
    requires WifiQuality(output).Ok? && k in WifiQuality(output).value.entries
    ensures HasData(WifiQuality(output).value.entries[k])
    ensures exists l :: l in Split(output, '\n') && IsHeader(l) && FirstWord(l) == Some(k)
  {
    KeysFromHeaders(Split(output, '\n'), Start(), k);
  }
}
