/**
 * The few pieces of Python's `str` that the tracker relies on: prefix and substring
 * tests, `strip`, `split`, `join`, and the decimal and hexadecimal renderings of
 * integers. Only ASCII digits and ASCII whitespace are recognised.
 */
module Text {
  import opened Common

  predicate IsDigit(c: char) { '0' <= c <= '9' }

  /**
   * `c.isspace()` restricted to ASCII: space, tab, newline, vertical tab, form feed,
   * carriage return, and the file, group, record and unit separators U+001C..U+001F.
   */
  predicate IsSpace(c: char)
  {
    c == ' ' || c == '\t' || c == '\n' || c == '\r' || c == '\U{000B}' || c == '\U{000C}'
    || ('\U{001C}' <= c <= '\U{001F}')
  }

  predicate AllDigits(s: string) { forall i :: 0 <= i < |s| ==> IsDigit(s[i]) }

  /** `s.startswith(prefix)` */
  predicate StartsWith(s: string, prefix: string)
  {
    |prefix| <= |s| && s[..|prefix|] == prefix
  }

  /** `s.endswith(suffix)` */
  predicate EndsWith(s: string, suffix: string)
  {
    |suffix| <= |s| && s[|s| - |suffix|..] == suffix
  }

  /** `sub in s` */
  predicate Contains(s: string, sub: string)
    decreases |s|
  {
    StartsWith(s, sub) || (|s| > 0 && Contains(s[1..], sub))
  }

  lemma {:induction false} ContainsAt(s: string, sub: string, i: nat)
    requires i + |sub| <= |s| && s[i..i + |sub|] == sub
    ensures Contains(s, sub)
  {
    if i > 0 {
      assert s[1..][i - 1..i - 1 + |sub|] == sub;
      ContainsAt(s[1..], sub, i - 1);
    }
  }

  lemma {:induction false} ContainsWitness(s: string, sub: string) returns (i: nat)
    requires Contains(s, sub)
    ensures i + |sub| <= |s| && s[i..i + |sub|] == sub
    decreases |s|
  {
    if StartsWith(s, sub) {
      i := 0;
    } else {
      var j := ContainsWitness(s[1..], sub);
      i := j + 1;
      assert s[i..i + |sub|] == s[1..][j..j + |sub|];
    }
  }

  /** The first index from `i` on that does not hold whitespace. */
  function SpaceRunEnd(s: string, i: nat): (e: nat)
    requires i <= |s|
    ensures i <= e <= |s| && (e == |s| || !IsSpace(s[e]))
    ensures forall k :: i <= k < e ==> IsSpace(s[k])
    decreases |s| - i
  {
    if i < |s| && IsSpace(s[i]) then SpaceRunEnd(s, i + 1) else i
  }

  /** The start of the run of whitespace that ends at index `j`. */
  function SpaceRunStart(s: string, j: nat): (b: nat)
    requires j <= |s|
    ensures b <= j && (b == 0 || !IsSpace(s[b - 1]))
    ensures forall k :: b <= k < j ==> IsSpace(s[k])
    decreases j
  {
    if j > 0 && IsSpace(s[j - 1]) then SpaceRunStart(s, j - 1) else j
  }

  /** `s.lstrip()` */
  function TrimLeft(s: string): (r: string)
    ensures |r| <= |s| && r == s[|s| - |r|..]
    ensures r == [] || !IsSpace(r[0])
    ensures forall i :: 0 <= i < |s| - |r| ==> IsSpace(s[i])
  {
    s[SpaceRunEnd(s, 0)..]
  }

  /** `s.rstrip()` */
  function TrimRight(s: string): (r: string)
    ensures |r| <= |s| && r == s[..|r|]
    ensures r == [] || !IsSpace(r[|r| - 1])
    ensures forall i :: |r| <= i < |s| ==> IsSpace(s[i])
  {
    s[..SpaceRunStart(s, |s|)]
  }

  /** `s.strip()` */
  function Strip(s: string): (r: string)
    ensures r == [] || (!IsSpace(r[0]) && !IsSpace(r[|r| - 1]))
  {
    TrimRight(TrimLeft(s))
  }

  /**
   * What `strip` keeps: one slice of `s` with only whitespace before and after it, which
   * starts and ends on a non-whitespace character unless it is empty.
   */
  lemma StripKeepsMiddle(s: string)
    ensures exists i, j :: (0 <= i <= j <= |s| && Strip(s) == s[i..j]
      && (forall k :: 0 <= k < i ==> IsSpace(s[k]))
      && (forall k :: j <= k < |s| ==> IsSpace(s[k])))
    ensures Strip(s) == [] || (!IsSpace(Strip(s)[0]) && !IsSpace(Strip(s)[|Strip(s)| - 1]))
  {
    var i := SpaceRunEnd(s, 0);
    var t := s[i..];
    var m := SpaceRunStart(t, |t|);
    var j := i + m;
    assert Strip(s) == t[..m] == s[i..j];
    forall k | j <= k < |s|
      ensures IsSpace(s[k])
    {
      assert s[k] == t[k - i];
    }
  }

  /** `not s.strip()`: the string is whitespace only. */
  predicate IsBlank(s: string)
  {
    SpaceRunEnd(s, 0) == |s|
  }

  /** A string is blank exactly when stripping it leaves nothing, and when it has no first word. */
  lemma BlankIffStripEmpty(s: string)
    ensures IsBlank(s) <==> Strip(s) == []
    ensures IsBlank(s) <==> FirstWord(s).None?
  {
    var left := TrimLeft(s);
    assert left == s[SpaceRunEnd(s, 0)..];
    if left != [] {
      assert TrimRight(left) != [] by {
        assert !IsSpace(left[0]);
      }
    }
  }

  /** The ASCII separators are whitespace to `strip` and `split()`, as they are to `str.isspace`. */
  lemma SeparatorsAreWhitespace()
    ensures IsBlank("\U{001C}\U{001F}") && Strip("\U{001C}\U{001F}") == []
    ensures FirstWord("\U{001D}wlan0\U{001E}IEEE") == Some("wlan0")
  {
    BlankIffStripEmpty("\U{001C}\U{001F}");
    var line := "\U{001D}wlan0\U{001E}IEEE";
    assert line[1..6] == "wlan0";
    LeadingWordIsFirst(line, 1, "wlan0");
  }

  /** `s.split(sep)` for a one-character separator: empty pieces are kept. */
  function Split(s: string, sep: char): (parts: seq<string>)
    ensures |parts| >= 1
    ensures forall i :: 0 <= i < |parts| ==> sep !in parts[i]
    decreases |s|
  {
    if s == [] then [""]
    else
      var rest := Split(s[1..], sep);
      if s[0] == sep then [""] + rest else [[s[0]] + rest[0]] + rest[1..]
  }

  /** `sep.join(parts)` */
  function Join(parts: seq<string>, sep: string): string
  {
    if parts == [] then ""
    else if |parts| == 1 then parts[0]
    else parts[0] + sep + Join(parts[1..], sep)
  }

  /** Splitting on a character and joining on it again gives back the original text. */
  lemma {:induction false} JoinSplit(s: string, sep: char)
    ensures Join(Split(s, sep), [sep]) == s
    decreases |s|
  {
    if s != [] {
      var rest := Split(s[1..], sep);
      JoinSplit(s[1..], sep);
      if s[0] == sep {
        assert Split(s, sep) == [""] + rest;
      } else {
        var parts := Split(s, sep);
        assert parts == [[s[0]] + rest[0]] + rest[1..];
        if |rest| == 1 {
          assert Join(parts, [sep]) == [s[0]] + rest[0] == [s[0]] + Join(rest, [sep]);
        } else {
          assert Join(parts, [sep]) == [s[0]] + (rest[0] + [sep] + Join(rest[1..], [sep]));
        }
        assert s == [s[0]] + s[1..];
      }
    }
  }

  /** The first index from `i` on that holds whitespace. */
  function WordEnd(s: string, i: nat): (e: nat)
    requires i <= |s|
    ensures i <= e <= |s| && (e == |s| || IsSpace(s[e]))
    ensures forall k :: i <= k < e ==> !IsSpace(s[k])
    decreases |s| - i
  {
    if i < |s| && !IsSpace(s[i]) then WordEnd(s, i + 1) else i
  }

  /** The leading run of non-whitespace characters. */
  function TakeWord(s: string): (w: string)
    ensures |w| <= |s| && w == s[..|w|]
    ensures forall i :: 0 <= i < |w| ==> !IsSpace(w[i])
    ensures |w| == |s| || IsSpace(s[|w|])
  {
    s[..WordEnd(s, 0)]
  }

  /** `s.split()[0]`, or `None` where `s.split()` is empty. */
  function FirstWord(s: string): (w: Option<string>)
    ensures w.Some? <==> exists i :: 0 <= i < |s| && !IsSpace(s[i])
    ensures w.Some? ==> w.value != [] && forall i :: 0 <= i < |w.value| ==> !IsSpace(w.value[i])
  {
    var t := TrimLeft(s);
    if t == [] then None else Some(TakeWord(t))
  }

  /** `w` stands at index `i` of `s` after only whitespace, and whitespace or the end follows it. */
  predicate LeadingAt(s: string, i: nat, w: string)
  {
    i + |w| <= |s| && s[i..i + |w|] == w
    && (forall k :: 0 <= k < i ==> IsSpace(s[k]))
    && (i + |w| == |s| || IsSpace(s[i + |w|]))
  }

  /**
   * `s.split()[0]` is the run of non-whitespace characters that starts at the first
   * non-whitespace character of `s`, and no other word.
   */
  lemma FirstWordIsLeadingRun(s: string, w: string)
    ensures FirstWord(s) == Some(w) <==>
      w != [] && (forall k :: 0 <= k < |w| ==> !IsSpace(w[k])) && exists i :: LeadingAt(s, i, w)
  {
    var i := SpaceRunEnd(s, 0);
    var t := s[i..];
    if FirstWord(s) == Some(w) {
      assert t != [] && w == TakeWord(t) == s[i..i + |w|];
      assert i + |w| == |s| || IsSpace(s[i + |w|]) by {
        if |w| < |t| {
          assert s[i + |w|] == t[|w|];
        }
      }
      assert LeadingAt(s, i, w);
    }
    if w != [] && (forall k :: 0 <= k < |w| ==> !IsSpace(w[k])) && exists i :: LeadingAt(s, i, w) {
      var i': nat :| LeadingAt(s, i', w);
      LeadingWordIsFirst(s, i', w);
    }
  }

  /** A non-empty word after only whitespace, followed by whitespace or the end, is the first word. */
  lemma LeadingWordIsFirst(s: string, i: nat, w: string)
    requires w != [] && (forall k :: 0 <= k < |w| ==> !IsSpace(w[k])) && LeadingAt(s, i, w)
    ensures FirstWord(s) == Some(w)
  {
    assert s[i] == w[0];
    assert SpaceRunEnd(s, 0) == i;
    var t := s[i..];
    assert TrimLeft(s) == t;
    assert forall k :: 0 <= k < |w| ==> t[k] == w[k];
    assert |w| < |t| ==> t[|w|] == s[i + |w|];
    assert WordEnd(t, 0) == |w|;
    assert t[..|w|] == w;
  }

  function DigitChar(d: nat): (c: char)
    requires d < 10
    ensures IsDigit(c)
  {
    (48 + d) as char
  }

  function DigitValue(c: char): nat
    requires IsDigit(c)
  {
    c as int - 48
  }

  /** `str(n)` for a natural number. */
  function NatToString(n: nat): (s: string)
    ensures |s| >= 1 && AllDigits(s)
    decreases n
  {
    if n < 10 then [DigitChar(n)] else NatToString(n / 10) + [DigitChar(n % 10)]
  }

  /** `int(s)` for a non-empty run of ASCII digits. */
  function DigitsValue(s: string): nat
    requires AllDigits(s)
    decreases |s|
  {
    if s == [] then 0 else 10 * DigitsValue(s[..|s| - 1]) + DigitValue(s[|s| - 1])
  }

  /** Reading back a rendered natural number gives the number. */
  lemma {:induction false} DigitsValueOfNatToString(n: nat)
    ensures DigitsValue(NatToString(n)) == n
    decreases n
  {
    if n >= 10 {
      var s := NatToString(n);
      DigitsValueOfNatToString(n / 10);
      assert s[..|s| - 1] == NatToString(n / 10);
    }
  }

  /** `str(i)` for any integer. */
  function IntToString(i: int): (s: string)
    ensures |s| >= 1
    ensures i < 0 <==> s[0] == '-'
  {
    if i < 0 then "-" + NatToString(-i) else NatToString(i)
  }

  /** `int(text)` for an optionally signed run of digits; 0 for any other text. */
  function SignedValue(text: string): int
  {
    if text != [] && text[0] == '-' && AllDigits(text[1..]) then -(DigitsValue(text[1..]) as int)
    else if AllDigits(text) then DigitsValue(text)
    else 0
  }

  /** `int(str(i)) == i`: reading back a rendered integer gives the integer. */
  lemma SignedValueOfIntToString(i: int)
    ensures SignedValue(IntToString(i)) == i
  {
    var s := IntToString(i);
    if i < 0 {
      assert s[1..] == NatToString(-i);
      DigitsValueOfNatToString(-i);
    } else {
      DigitsValueOfNatToString(i);
    }
  }

  const UPPER_HEX_DIGITS: string := "0123456789ABCDEF"
  const LOWER_HEX_DIGITS: string := "0123456789abcdef"

  /** The two hexadecimal digits of a byte, drawn from `digits` (upper or lower case). */
  function HexPair(b: byte, digits: string): (s: string)
    requires |digits| == 16
    ensures |s| == 2
  {
    [digits[b / 16], digits[b % 16]]
  }

  /** The value of a hexadecimal digit in either case; 0 for any other character. */
  function HexValue(c: char): (v: nat)
    ensures v < 16
  {
    if '0' <= c <= '9' then c as int - 48
    else if 'A' <= c <= 'F' then c as int - 55
    else if 'a' <= c <= 'f' then c as int - 87
    else 0
  }

  lemma HexPairValue(b: byte, digits: string)
    requires digits == UPPER_HEX_DIGITS || digits == LOWER_HEX_DIGITS
    ensures 16 * HexValue(HexPair(b, digits)[0]) + HexValue(HexPair(b, digits)[1]) == b
  {
    var hi, lo := b / 16, b % 16;
    assert HexValue(digits[hi]) == hi by {
      assert digits[hi] == if hi < 10 then (48 + hi) as char
        else if digits == UPPER_HEX_DIGITS then (55 + hi) as char else (87 + hi) as char;
    }
    assert HexValue(digits[lo]) == lo by {
      assert digits[lo] == if lo < 10 then (48 + lo) as char
        else if digits == UPPER_HEX_DIGITS then (55 + lo) as char else (87 + lo) as char;
    }
  }
}
