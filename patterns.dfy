/**
 * The regular expressions the Wi-Fi tools search their command output with, written
 * as matchers: a matcher tries to match at one position and gives the captured groups
 * and where the match ends; `Search` gives the leftmost match (`re.search`) and
 * `FindAll` the successive non-overlapping ones (`re.findall`).
 *
 * Every pattern here is a literal followed by greedy runs of a character class, each
 * run followed by a character outside its class or by the end of the pattern, so the
 * greedy run is the only one that can succeed and no backtracking is needed. `\d`
 * stands for the ASCII digits.
 */
module Patterns {
  import opened Common
  import opened Text

  datatype Match = Match(groups: seq<string>, end: nat)

  type Matcher = (string, nat) -> Option<Match>

  /** `s[i:].startswith(lit)` */
  predicate LitAt(s: string, i: nat, lit: string)
  {
    i + |lit| <= |s| && s[i..i + |lit|] == lit
  }

  /** The end of the longest run of digits starting at `i`. */
  function DigitRun(s: string, i: nat): (e: nat)
    ensures i <= |s| ==> i <= e <= |s| && (e == |s| || !IsDigit(s[e]))
    ensures i <= |s| ==> forall k :: i <= k < e ==> IsDigit(s[k])
    ensures i > |s| ==> e == i
    decreases |s| - i
  {
    if i < |s| && IsDigit(s[i]) then DigitRun(s, i + 1) else i
  }

  predicate IsAddressChar(c: char) { IsDigit(c) || 'A' <= c <= 'F' || c == ':' }

  /** The end of the longest run of `[0-9A-F:]` starting at `i`. */
  function AddressRun(s: string, i: nat): (e: nat)
    ensures i <= |s| ==> i <= e <= |s| && (e == |s| || !IsAddressChar(s[e]))
    ensures i > |s| ==> e == i
    decreases |s| - i
  {
    if i < |s| && IsAddressChar(s[i]) then AddressRun(s, i + 1) else i
  }

  /** The end of the longest run of `[^"]` starting at `i`. */
  function UnquotedRun(s: string, i: nat): (e: nat)
    ensures i <= |s| ==> i <= e <= |s| && (e == |s| || s[e] == '"')
    ensures i <= |s| ==> forall k :: i <= k < e ==> s[k] != '"'
    ensures i > |s| ==> e == i
    decreases |s| - i
  {
    if i < |s| && s[i] != '"' then UnquotedRun(s, i + 1) else i
  }

  /**
   * `re.search(m, s[i:])`: the leftmost position from `i` at which `m` matches, and
   * the match there.
   */
  function SearchFrom(s: string, m: Matcher, i: nat): (r: Option<(nat, Match)>)
    ensures r.Some? ==> i <= r.value.0 <= |s| && m(s, r.value.0) == Some(r.value.1)
    ensures r.Some? ==> forall k :: i <= k < r.value.0 ==> m(s, k).None?
    ensures r.None? ==> forall k :: i <= k <= |s| ==> m(s, k).None?
    decreases |s| - i
  {
    if i > |s| then None
    else match m(s, i)
      case Some(x) => Some((i, x))
      case None => if i == |s| then None else SearchFrom(s, m, i + 1)
  }

  /** The groups of `re.search(m, s)`, for a pattern with `n` groups. */
  function Search(s: string, m: Matcher, n: nat): (r: Option<seq<string>>)
    ensures r.Some? ==> |r.value| == n
  {
    match SearchFrom(s, m, 0)
    case Some((_, x)) => if |x.groups| == n then Some(x.groups) else None
    case None => None
  }

  /** `re.findall` with one group: the group of each match, scanning on from the end of the last. */
  function FindAll(s: string, m: Matcher, i: nat): seq<string>
    decreases |s| - i
  {
    match SearchFrom(s, m, i)
    case None => []
    case Some((k, x)) =>
      var g := if x.groups != [] then x.groups[0] else "";
      if x.end <= i || x.end > |s| then [g] else [g] + FindAll(s, m, x.end)
  }

  /** A non-empty run of digits from `i`, and where it ends. */
  function DigitsAt(s: string, i: nat): (r: Option<(string, nat)>)
    ensures r.Some? ==> i < r.value.1 <= |s| && r.value.0 == s[i..r.value.1] && AllDigits(r.value.0)
  {
    var e := DigitRun(s, i);
    if i < e then Some((s[i..e], e)) else None
  }

  /** `Cell (\d+) - Address: ([0-9A-F:]+)` */
  function CellAt(s: string, i: nat): Option<Match>
  {
    if !LitAt(s, i, "Cell ") then None
    else match DigitsAt(s, i + 5)
      case None => None
      case Some((num, d)) =>
        if !LitAt(s, d, " - Address: ") then None
        else
          var a := AddressRun(s, d + 12);
          if a == d + 12 then None else Some(Match([num, s[d + 12..a]], a))
  }

  /** `ESSID:"([^"]*)"` */
  function EssidAt(s: string, i: nat): Option<Match>
  {
    if !LitAt(s, i, "ESSID:\"") then None
    else
      var q := UnquotedRun(s, i + 7);
      if q < |s| then Some(Match([s[i + 7..q]], q + 1)) else None
  }

  /** `Channel:(\d+)` */
  function ChannelAt(s: string, i: nat): Option<Match>
  {
    if !LitAt(s, i, "Channel:") then None
    else match DigitsAt(s, i + 8)
      case None => None
      case Some((num, e)) => Some(Match([num], e))
  }

  /** `(\d+\.\d+)` followed by `unit`: the decimal text and where the unit ends. */
  function DecimalAt(s: string, i: nat, unit: string): Option<Match>
  {
    match DigitsAt(s, i)
    case None => None
    case Some((_, d)) =>
      if d >= |s| || s[d] != '.' then None
      else match DigitsAt(s, d + 1)
        case None => None
        case Some((_, e)) => if LitAt(s, e, unit) then Some(Match([s[i..e]], e + |unit|)) else None
  }

  /** `Frequency:(\d+\.\d+) GHz` */
  function FrequencyAt(s: string, i: nat): Option<Match>
  {
    if !LitAt(s, i, "Frequency:") then None else DecimalAt(s, i + 10, " GHz")
  }

  /** `(\d+\.\d+) Mb/s` */
  function RateAt(s: string, i: nat): Option<Match>
  {
    DecimalAt(s, i, " Mb/s")
  }

  /** `<prefix>(\d+)/(\d+)`, for `Quality=` and `Link Quality=`. */
  function RatioAt(s: string, i: nat, prefix: string): Option<Match>
  {
    if !LitAt(s, i, prefix) then None
    else match DigitsAt(s, i + |prefix|)
      case None => None
      case Some((v, d)) =>
        if d >= |s| || s[d] != '/' then None
        else match DigitsAt(s, d + 1)
          case None => None
          case Some((m, e)) => Some(Match([v, m], e))
  }

  function QualityAt(s: string, i: nat): Option<Match> { RatioAt(s, i, "Quality=") }

  function LinkQualityAt(s: string, i: nat): Option<Match> { RatioAt(s, i, "Link Quality=") }

  /** `Signal level=(-?\d+) dBm` */
  function SignalAt(s: string, i: nat): Option<Match>
  {
    if !LitAt(s, i, "Signal level=") then None
    else
      var j := i + 13;
      var k := if j < |s| && s[j] == '-' then j + 1 else j;
      match DigitsAt(s, k)
      case None => None
      case Some((_, e)) => if LitAt(s, e, " dBm") then Some(Match([s[j..e]], e + 4)) else None
  }

  /** `Encryption key:(on|off)` */
  function EncryptionAt(s: string, i: nat): Option<Match>
  {
    if !LitAt(s, i, "Encryption key:") then None
    else if LitAt(s, i + 15, "on") then Some(Match(["on"], i + 17))
    else if LitAt(s, i + 15, "off") then Some(Match(["off"], i + 18))
    else None
  }

  /** A quality reading `value/max` as a percentage, `value / max * 100`, computed exactly. */
  function Percent(value: nat, max: nat): real
    requires max > 0
  {
    (value as real / max as real) * 100.0
  }

  /** A signal match gives back the integer written in the line, with its sign. */
  lemma SignalValue(s: string, i: nat, n: int)
    requires LitAt(s, i, "Signal level=") && LitAt(s, i + 13, IntToString(n) + " dBm")
    ensures SignalAt(s, i).Some? && SignedValue(SignalAt(s, i).value.groups[0]) == n
  {
    var text := IntToString(n);
    var j := i + 13;
    var e := j + |text|;
    assert s[j..e] == text by {
      assert s[j..j + |text| + 4][..|text|] == text;
    }
    assert s[e..e + 4] == " dBm" by {
      assert s[j..j + |text| + 4][|text|..] == " dBm";
    }
    var k := if n < 0 then j + 1 else j;
    assert s[j] == text[0];
    assert k == (if j < |s| && s[j] == '-' then j + 1 else j) by {
      if n >= 0 {
        assert IsDigit(text[0]);
      }
    }
    assert s[k..e] == NatToString(if n < 0 then -n else n) by {
      if n < 0 {
        assert s[k..e] == s[j..e][1..];
      }
    }
    assert DigitRun(s, k) == e by {
      assert s[e] == ' ';
      DigitRunOver(s, k, e);
    }
    assert DigitsAt(s, k) == Some((s[k..e], e));
    assert LitAt(s, e, " dBm");
    assert SignalAt(s, i) == Some(Match([text], e + 4));
    SignedValueOfIntToString(n);
  }

  /** The digit run from `i` stops at `e` when `s[i..e]` is all digits and `s[e]` is not one. */
  lemma {:induction false} DigitRunOver(s: string, i: nat, e: nat)
    requires i <= e < |s| && AllDigits(s[i..e]) && !IsDigit(s[e])
    ensures DigitRun(s, i) == e
    decreases e - i
  {
    if i < e {
      assert IsDigit(s[i..e][0]);
      assert s[i + 1..e] == s[i..e][1..];
      DigitRunOver(s, i + 1, e);
    }
  }

  /** The address run from `i` reaches the end when every character from `i` on is in its class. */
  lemma {:induction false} AddressRunToEnd(s: string, i: nat)
    requires i <= |s| && forall k :: i <= k < |s| ==> IsAddressChar(s[k])
    ensures AddressRun(s, i) == |s|
    decreases |s| - i
  {
    if i < |s| {
      AddressRunToEnd(s, i + 1);
    }
  }
}
