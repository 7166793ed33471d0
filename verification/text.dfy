/** String helpers with the meaning Python's `str` methods have on ASCII text:
    whitespace stripping, splitting, decimal and hexadecimal rendering and
    `int()` parsing, used by the assembler, the disassembler and the monitor. */
module Text {

  datatype Option<+T> = None | Some(value: T)

  /** `str.isspace` on ASCII: space, \t \n \v \f \r and the separators 0x1C-0x1F. */
  predicate IsSpace(c: char)
  {
    c == ' ' || '\t' <= c <= '\r' || '\U{1C}' <= c <= '\U{1F}'
  }

  predicate NoSpace(s: string)
  {
    forall i :: 0 <= i < |s| ==> !IsSpace(s[i])
  }

  /** Nothing but whitespace (the empty text included). */
  predicate AllSpace(s: string)
  {
    forall i :: 0 <= i < |s| ==> IsSpace(s[i])
  }

  predicate IsDigit(c: char)
  {
    '0' <= c <= '9'
  }

  predicate AllDigits(s: string)
  {
    forall i :: 0 <= i < |s| ==> IsDigit(s[i])
  }

  /** `str.isdigit()`: non-empty and made of digits (ASCII digits only). */
  predicate IsDigits(s: string)
  {
    |s| > 0 && AllDigits(s)
  }

  function DigitValue(c: char): (d: nat)
    requires IsDigit(c)
    ensures d < 10
  {
    (c as int) - ('0' as int)
  }

  function DigitChar(d: nat): (c: char)
    requires d < 10
    ensures IsDigit(c) && DigitValue(c) == d
  {
    (('0' as int) + d) as char
  }

  /** The number a digit string denotes, most significant digit first. */
  function DigitsValue(s: string): nat
    requires AllDigits(s)
  {
    if s == [] then 0 else 10 * DigitsValue(s[..|s| - 1]) + DigitValue(s[|s| - 1])
  }

  /** `str(n)` for a non-negative integer. */
  function Decimal(n: nat): (s: string)
    ensures IsDigits(s) && NoSpace(s)
    ensures s[0] != '-' && s[0] != '+' && s[0] != '#' && s[0] != '(' && s[0] != 'R'
  {
    if n < 10 then [DigitChar(n)] else Decimal(n / 10) + [DigitChar(n % 10)]
  }

  /** `str(i)` for any integer: a minus sign, then the digits of |i|. */
  function IntToString(i: int): (s: string)
    ensures |s| > 0 && NoSpace(s)
    ensures i >= 0 <==> IsDigits(s)
  {
    if i < 0 then
      var d := Decimal(-i);
      assert ("-" + d)[0] == '-';
      "-" + d
    else Decimal(i)
  }

  lemma {:induction false} DecimalValue(n: nat)
    ensures DigitsValue(Decimal(n)) == n
  {
    if n >= 10 {
      var s := Decimal(n);
      assert s[..|s| - 1] == Decimal(n / 10);
      DecimalValue(n / 10);
    }
  }

  // ---------------------------------------------------------------- stripping

  /** Index of the first non-whitespace character at or after i, or |s|. */
  function SkipSpaces(s: string, i: nat): (k: nat)
    requires i <= |s|
    ensures i <= k <= |s|
    ensures k < |s| ==> !IsSpace(s[k])
    decreases |s| - i
  {
    if i < |s| && IsSpace(s[i]) then SkipSpaces(s, i + 1) else i
  }

  /** What `SkipSpaces` skips is whitespace. */
  lemma {:induction false} SkippedSpaces(s: string, i: nat)
    requires i <= |s|
    ensures AllSpace(s[i..SkipSpaces(s, i)])
    decreases |s| - i
  {
    if i < |s| && IsSpace(s[i]) {
      SkippedSpaces(s, i + 1);
      var k := SkipSpaces(s, i);
      assert s[i..k] == [s[i]] + s[i + 1..k];
    }
  }

  /** Index just past the last non-whitespace character of s[i..j], or i. */
  function TrimEnd(s: string, i: nat, j: nat): (k: nat)
    requires i <= j <= |s|
    ensures i <= k <= j
    ensures k > i ==> !IsSpace(s[k - 1])
    decreases j
  {
    if j > i && IsSpace(s[j - 1]) then TrimEnd(s, i, j - 1) else j
  }

  /** What `TrimEnd` cuts off is whitespace. */
  lemma {:induction false} TrimmedSpaces(s: string, i: nat, j: nat)
    requires i <= j <= |s|
    ensures AllSpace(s[TrimEnd(s, i, j)..j])
    decreases j
  {
    if j > i && IsSpace(s[j - 1]) {
      TrimmedSpaces(s, i, j - 1);
      var k := TrimEnd(s, i, j);
      assert s[k..j] == s[k..j - 1] + [s[j - 1]];
    }
  }

  /** How much whitespace `s` starts with. */
  function LeadingSpaces(s: string): (k: nat)
    ensures k <= |s|
  {
    SkipSpaces(s, 0)
  }

  /** `s.strip()`. */
  function Strip(s: string): (r: string)
    ensures |r| <= |s|
    ensures r == [] || (!IsSpace(r[0]) && !IsSpace(r[|r| - 1]))
  {
    var i := LeadingSpaces(s);
    s[i..TrimEnd(s, i, |s|)]
  }

  /** `strip()` keeps the part of `s` after its leading whitespace and before
      its trailing whitespace: a slice of `s` with only whitespace outside it
      and none at its ends. */
  lemma StripSlice(s: string)
    ensures var k := LeadingSpaces(s);
            var r := Strip(s);
            && k + |r| <= |s| && r == s[k..k + |r|]
            && AllSpace(s[..k]) && AllSpace(s[k + |r|..])
  {
    var k := LeadingSpaces(s);
    var j := TrimEnd(s, k, |s|);
    SkippedSpaces(s, 0);
    assert s[..k] == s[0..k];
    TrimmedSpaces(s, k, |s|);
    assert s[j..] == s[j..|s|];
  }

  /** Text that neither starts nor ends with whitespace is its own `strip()`. */
  lemma StripNoSpace(s: string)
    requires |s| > 0 ==> !IsSpace(s[0]) && !IsSpace(s[|s| - 1])
    ensures Strip(s) == s
  {
    assert LeadingSpaces(s) == 0;
    assert s[0..|s|] == s;
  }

  /** `strip()` brings in no character: one absent from `s` is absent from
      `s.strip()`. */
  lemma StripKeepsOut(s: string, c: char)
    requires c !in s
    ensures c !in Strip(s)
  {
    StripSlice(s);
    var k := LeadingSpaces(s);
    var r := Strip(s);
    forall i | 0 <= i < |r|
      ensures r[i] != c
    {
      assert r[i] == s[k + i];
    }
  }

  /** Stripping twice is stripping once. */
  lemma StripStripped(s: string)
    ensures Strip(Strip(s)) == Strip(s)
  {
    StripNoSpace(Strip(s));
  }

  /** Two texts without whitespace joined have none. */
  lemma NoSpaceJoin(a: string, b: string)
    requires NoSpace(a) && NoSpace(b)
    ensures NoSpace(a + b)
  {
    forall i | 0 <= i < |a + b|
      ensures !IsSpace((a + b)[i])
    {
      if i < |a| {
        assert (a + b)[i] == a[i];
      } else {
        assert (a + b)[i] == b[i - |a|];
      }
    }
  }

  // ---------------------------------------------------------------- searching and splitting

  /** The first index at or after i where `c` occurs in `s`, if any. */
  function FindFrom(s: string, c: char, i: nat): (r: Option<nat>)
    requires i <= |s|
    ensures r.None? ==> forall p :: i <= p < |s| ==> s[p] != c
    ensures r.Some? ==> i <= r.value < |s| && s[r.value] == c && forall p :: i <= p < r.value ==> s[p] != c
    decreases |s| - i
  {
    if i == |s| then None else if s[i] == c then Some(i) else FindFrom(s, c, i + 1)
  }

  /** `s.index(c)`, or None where Python would raise. */
  function Find(s: string, c: char): (r: Option<nat>)
    ensures r.None? <==> c !in s
    ensures r.Some? ==> r.value < |s| && s[r.value] == c && c !in s[..r.value]
  {
    FindFrom(s, c, 0)
  }

  /** The pieces of s[i..] between occurrences of `sep`. */
  function SplitFrom(s: string, sep: char, i: nat): (r: seq<string>)
    requires i <= |s|
    ensures |r| >= 1
    ensures forall k :: 0 <= k < |r| ==> sep !in r[k]
    decreases |s| - i
  {
    match FindFrom(s, sep, i)
    case None => [s[i..]]
    case Some(k) => [s[i..k]] + SplitFrom(s, sep, k + 1)
  }

  /** `s.split(sep)` for a one-character separator: the pieces between
      separators, empty pieces kept, always at least one piece. */
  function Split(s: string, sep: char): (r: seq<string>)
    ensures |r| >= 1
    ensures forall k :: 0 <= k < |r| ==> sep !in r[k]
  {
    SplitFrom(s, sep, 0)
  }

  /** `sep.join(pieces)` for a one-character separator. */
  function Join(pieces: seq<string>, sep: char): string
    requires |pieces| >= 1
  {
    if |pieces| == 1 then pieces[0] else pieces[0] + [sep] + Join(pieces[1..], sep)
  }

  lemma {:induction false} SplitFromJoin(s: string, sep: char, i: nat)
    requires i <= |s|
    ensures Join(SplitFrom(s, sep, i), sep) == s[i..]
    decreases |s| - i
  {
    match FindFrom(s, sep, i)
    case None =>
    case Some(k) =>
      var r := SplitFrom(s, sep, i);
      SplitFromJoin(s, sep, k + 1);
      assert r[1..] == SplitFrom(s, sep, k + 1);
      assert s[i..] == s[i..k] + [sep] + s[k + 1..];
  }

  /** Joining the pieces of `s.split(sep)` with `sep` gives `s` back; with
      `Split`'s own guarantee that no piece holds `sep`, this pins the pieces
      down completely. */
  lemma SplitJoin(s: string, sep: char)
    ensures Join(Split(s, sep), sep) == s
  {
    SplitFromJoin(s, sep, 0);
    assert s[0..] == s;
  }

  // ---------------------------------------------------------------- words

  /** Index of the first whitespace character at or after i, or |s|. */
  function SpaceFrom(s: string, i: nat): (k: nat)
    requires i <= |s|
    ensures i <= k <= |s|
    ensures k < |s| ==> IsSpace(s[k])
    decreases |s| - i
  {
    if i == |s| || IsSpace(s[i]) then i else SpaceFrom(s, i + 1)
  }

  /** What `SpaceFrom` passes over holds no whitespace. */
  lemma {:induction false} RunHasNoSpace(s: string, i: nat)
    requires i <= |s|
    ensures NoSpace(s[i..SpaceFrom(s, i)])
    decreases |s| - i
  {
    if i < |s| && !IsSpace(s[i]) {
      RunHasNoSpace(s, i + 1);
      var k := SpaceFrom(s, i);
      assert s[i..k] == [s[i]] + s[i + 1..k];
    }
  }

  /** The words of s[i..]: skip whitespace, take the run up to the next
      whitespace, go on after it. */
  function WordsFrom(s: string, i: nat): seq<string>
    requires i <= |s|
    decreases |s| - i
  {
    if i == |s| then []
    else if IsSpace(s[i]) then WordsFrom(s, i + 1)
    else
      var j := SpaceFrom(s, i);
      [s[i..j]] + WordsFrom(s, j)
  }

  lemma {:induction false} WordsFromShape(s: string, i: nat)
    requires i <= |s|
    ensures forall k :: 0 <= k < |WordsFrom(s, i)| ==> |WordsFrom(s, i)[k]| > 0 && NoSpace(WordsFrom(s, i)[k])
    decreases |s| - i
  {
    if i < |s| {
      if IsSpace(s[i]) {
        WordsFromShape(s, i + 1);
      } else {
        WordsFromShape(s, SpaceFrom(s, i));
        RunHasNoSpace(s, i);
      }
    }
  }

  /** `s.split()`: the maximal runs of non-whitespace characters, in order. */
  function Words(s: string): (r: seq<string>)
    ensures forall k :: 0 <= k < |r| ==> |r[k]| > 0 && NoSpace(r[k])
  {
    WordsFromShape(s, 0);
    WordsFrom(s, 0)
  }

  lemma {:induction false} WordsFromNone(s: string, i: nat)
    requires i <= |s|
    ensures WordsFrom(s, i) == [] <==> AllSpace(s[i..])
    decreases |s| - i
  {
    if i < |s| {
      if IsSpace(s[i]) {
        WordsFromNone(s, i + 1);
        assert s[i..] == [s[i]] + s[i + 1..];
      } else {
        assert s[i..][0] == s[i];
      }
    }
  }

  /** `split()` finds no word exactly in text made of whitespace only. */
  lemma WordsNone(s: string)
    ensures Words(s) == [] <==> AllSpace(s)
  {
    WordsFromNone(s, 0);
    assert s[0..] == s;
  }

  /** Text that starts with a non-blank character has at least one word. */
  lemma WordsNonEmpty(s: string)
    requires s != [] && !IsSpace(s[0])
    ensures Words(s) != []
  {
  }

  /** A non-empty run without whitespace is one word. */
  lemma WordsOfWord(b: string)
    requires |b| > 0 && NoSpace(b)
    ensures Words(b) == [b]
  {
    SpaceRunEnd(b, 0);
    assert !IsSpace(b[0]);
    assert WordsFrom(b, 0) == [b[0..|b|]] + WordsFrom(b, |b|);
    assert b[0..|b|] == b;
  }

  lemma {:induction false} SpaceRunEnd(s: string, i: nat)
    requires i <= |s| && NoSpace(s)
    ensures SpaceFrom(s, i) == |s|
    decreases |s| - i
  {
    if i < |s| {
      SpaceRunEnd(s, i + 1);
    }
  }

  /** Scanning a prefix that stops before a whitespace character at i finds
      the same run end as scanning the whole text. */
  lemma {:induction false} SpaceFromPrefix(s: string, k: nat, i: nat)
    requires k <= i < |s| && IsSpace(s[i])
    ensures SpaceFrom(s, k) <= i && SpaceFrom(s[..i], k) == SpaceFrom(s, k)
    decreases i - k
  {
    if k < i {
      assert s[..i][k] == s[k];
      if !IsSpace(s[k]) {
        SpaceFromPrefix(s, k + 1, i);
      }
    }
  }

  lemma {:induction false} SpaceFromShift(s: string, i: nat, k: nat)
    requires i + k <= |s|
    ensures SpaceFrom(s, i + k) == i + SpaceFrom(s[i..], k)
    decreases |s| - (i + k)
  {
    if i + k < |s| {
      assert s[i..][k] == s[i + k];
      if !IsSpace(s[i + k]) {
        SpaceFromShift(s, i, k + 1);
      }
    }
  }

  /** The words of a suffix are the words of the text from where it starts. */
  lemma {:induction false} WordsFromShift(s: string, i: nat, k: nat)
    requires i + k <= |s|
    ensures WordsFrom(s, i + k) == WordsFrom(s[i..], k)
    decreases |s| - (i + k)
  {
    if i + k < |s| {
      if IsSpace(s[i + k]) {
        ShiftOverSpace(s, i, k);
        WordsFromShift(s, i, k + 1);
      } else {
        var j := SpaceFrom(s[i..], k);
        ShiftOverWord(s, i, k);
        WordsFromShift(s, i, j);
      }
    }
  }

  lemma ShiftOverSpace(s: string, i: nat, k: nat)
    requires i + k < |s| && IsSpace(s[i + k])
    ensures WordsFrom(s, i + k) == WordsFrom(s, i + (k + 1))
    ensures WordsFrom(s[i..], k) == WordsFrom(s[i..], k + 1)
  {
    assert s[i..][k] == s[i + k];
  }

  lemma ShiftOverWord(s: string, i: nat, k: nat)
    requires i + k < |s| && !IsSpace(s[i + k])
    ensures var j := SpaceFrom(s[i..], k);
            && k < j
            && WordsFrom(s, i + k) == [s[i..][k..j]] + WordsFrom(s, i + j)
            && WordsFrom(s[i..], k) == [s[i..][k..j]] + WordsFrom(s[i..], j)
  {
    var t := s[i..];
    var j := SpaceFrom(t, k);
    assert t[k] == s[i + k];
    SpaceFromShift(s, i, k);
    assert t[k..j] == s[i + k..i + j];
  }

  /** The words from k of a text with whitespace at i are those of the part
      before i followed by those after i. */
  lemma {:induction false} WordsFromPrefix(s: string, k: nat, i: nat)
    requires k <= i < |s| && IsSpace(s[i])
    ensures WordsFrom(s, k) == WordsFrom(s[..i], k) + WordsFrom(s, i + 1)
    decreases i - k
  {
    if k == i {
      assert WordsFrom(s[..i], k) == [];
    } else if IsSpace(s[k]) {
      PrefixOverSpace(s, k, i);
      WordsFromPrefix(s, k + 1, i);
    } else {
      var j := SpaceFrom(s, k);
      PrefixOverWord(s, k, i);
      if j < i {
        WordsFromPrefix(s, j, i);
      } else {
        assert WordsFrom(s[..i], j) == [];
      }
    }
  }

  lemma PrefixOverSpace(s: string, k: nat, i: nat)
    requires k < i < |s| && IsSpace(s[k])
    ensures WordsFrom(s, k) == WordsFrom(s, k + 1)
    ensures WordsFrom(s[..i], k) == WordsFrom(s[..i], k + 1)
  {
    assert s[..i][k] == s[k];
  }

  lemma PrefixOverWord(s: string, k: nat, i: nat)
    requires k < i < |s| && IsSpace(s[i]) && !IsSpace(s[k])
    ensures var j := SpaceFrom(s, k);
            && k < j <= i
            && WordsFrom(s, k) == [s[k..j]] + WordsFrom(s, j)
            && WordsFrom(s[..i], k) == [s[k..j]] + WordsFrom(s[..i], j)
  {
    var t := s[..i];
    var j := SpaceFrom(s, k);
    assert t[k] == s[k];
    SpaceFromPrefix(s, k, i);
    assert t[k..j] == s[k..j];
  }

  /** Whitespace separates words: the words of a text are the words before
      any whitespace character followed by the words after it. With
      `WordsOfWord` and `WordsNone` this determines `split()` completely. */
  lemma WordsSplitAt(s: string, i: nat)
    requires i < |s| && IsSpace(s[i])
    ensures Words(s) == Words(s[..i]) + Words(s[i + 1..])
  {
    WordsFromPrefix(s, 0, i);
    WordsFromShift(s, i + 1, 0);
  }

  /** Two space-free words joined by one space split back into those two words. */
  lemma WordsOfPair(a: string, b: string)
    requires |a| > 0 && NoSpace(a) && |b| > 0 && NoSpace(b)
    ensures Words(a + " " + b) == [a, b]
  {
    var s := a + " " + b;
    assert s[|a|] == ' ';
    WordsSplitAt(s, |a|);
    assert s[..|a|] == a && s[|a| + 1..] == b;
    WordsOfWord(a);
    WordsOfWord(b);
  }

  // ---------------------------------------------------------------- case and padding

  /** `str.upper()` on ASCII letters; other characters are kept. */
  function UpperChar(c: char): char
  {
    if 'a' <= c <= 'z' then (c as int - 32) as char else c
  }

  function Upper(s: string): (r: string)
    ensures |r| == |s| && forall i :: 0 <= i < |s| ==> r[i] == UpperChar(s[i])
  {
    seq(|s|, i requires 0 <= i < |s| => UpperChar(s[i]))
  }

  function Repeat(c: char, n: nat): (r: string)
    ensures |r| == n && forall i :: 0 <= i < n ==> r[i] == c
  {
    seq(n, _ => c)
  }

  /** Python's `f"{s:<w}"` for strings (`{s:10s}`): pad on the right with spaces. */
  function PadRight(s: string, width: nat): (r: string)
    ensures |r| == if |s| < width then width else |s|
    ensures r[..|s|] == s && forall i :: |s| <= i < |r| ==> r[i] == ' '
  {
    if |s| < width then s + Repeat(' ', width - |s|) else s
  }

  // ---------------------------------------------------------------- hexadecimal

  predicate IsHexDigit(c: char)
  {
    '0' <= c <= '9' || 'A' <= c <= 'F'
  }

  predicate IsHex(s: string)
  {
    forall i :: 0 <= i < |s| ==> IsHexDigit(s[i])
  }

  function HexDigit(d: nat): (c: char)
    requires d < 16
    ensures IsHexDigit(c)
  {
    if d < 10 then DigitChar(d) else (('A' as int) + d - 10) as char
  }

  function HexDigitValue(c: char): (d: nat)
    requires IsHexDigit(c)
    ensures d < 16
  {
    if c <= '9' then (c as int) - ('0' as int) else (c as int) - ('A' as int) + 10
  }

  function HexValue(s: string): nat
    requires IsHex(s)
  {
    if s == [] then 0 else 16 * HexValue(s[..|s| - 1]) + HexDigitValue(s[|s| - 1])
  }

  /** Upper-case hexadecimal digits of n without leading zeros (`f"{n:X}"`). */
  function HexDigits(n: nat): (s: string)
    ensures |s| > 0 && IsHex(s)
  {
    if n < 16 then [HexDigit(n)] else HexDigits(n / 16) + [HexDigit(n % 16)]
  }

  /** `f"{n:0{width}X}"`: upper-case hexadecimal, zero-padded to at least `width` digits. */
  function Hex(n: nat, width: nat): (s: string)
    ensures IsHex(s) && |s| >= width && |s| >= 1
  {
    var d := HexDigits(n);
    if |d| < width then Repeat('0', width - |d|) + d else d
  }

  lemma {:induction false} HexDigitsValue(n: nat)
    ensures HexValue(HexDigits(n)) == n
  {
    if n >= 16 {
      var s := HexDigits(n);
      assert s[..|s| - 1] == HexDigits(n / 16);
      HexDigitsValue(n / 16);
    }
  }

  lemma {:induction false} LeadingZeros(k: nat, s: string)
    requires IsHex(s)
    ensures IsHex(Repeat('0', k) + s) && HexValue(Repeat('0', k) + s) == HexValue(s)
    decreases |s|
  {
    var z := Repeat('0', k) + s;
    if s == [] {
      assert z == Repeat('0', k);
      ZerosValue(k);
    } else {
      assert z[..|z| - 1] == Repeat('0', k) + s[..|s| - 1];
      LeadingZeros(k, s[..|s| - 1]);
    }
  }

  lemma {:induction false} ZerosValue(k: nat)
    ensures IsHex(Repeat('0', k)) && HexValue(Repeat('0', k)) == 0
  {
    if k > 0 {
      assert Repeat('0', k)[..k - 1] == Repeat('0', k - 1);
      ZerosValue(k - 1);
    }
  }

  /** Zero-padded hexadecimal reads back as the number it renders. */
  lemma HexRoundTrip(n: nat, width: nat)
    ensures HexValue(Hex(n, width)) == n
  {
    var d := HexDigits(n);
    var h := Hex(n, width);
    HexDigitsValue(n);
    if |d| < width {
      var z := Repeat('0', width - |d|);
      LeadingZeros(width - |d|, d);
      assert h == z + d;
      assert HexValue(z + d) == HexValue(d);
    } else {
      assert h == d;
    }
    assert HexValue(h) == HexValue(d);
  }

  /** Below 16^k, exactly k digits are produced when the width is k. */
  lemma {:induction false} HexDigitsLength(n: nat, k: nat)
    requires 1 <= k
    requires n < Pow16(k)
    ensures |HexDigits(n)| <= k
  {
    if n >= 16 {
      HexDigitsLength(n / 16, k - 1);
    }
  }

  function Pow16(k: nat): (p: nat)
    ensures p >= 1
  {
    if k == 0 then 1 else 16 * Pow16(k - 1)
  }

  // ---------------------------------------------------------------- int()

  /** Python's `int(s)` restricted to ASCII: surrounding whitespace, an optional
      sign, then one or more digits; None where Python raises ValueError. */
  function ParseInt(s: string): (r: Option<int>)
    ensures r.Some? ==> |Strip(s)| > 0 && (r.value < 0 ==> Strip(s)[0] == '-')
    ensures IsDigits(Strip(s)) <==> r.Some? && 0 <= r.value && IsDigit(Strip(s)[0])
  {
    var t := Strip(s);
    if IsDigits(t) then Some(DigitsValue(t))
    else if |t| >= 2 && t[0] == '-' && IsDigits(t[1..]) then
      var n: int := DigitsValue(t[1..]); Some(-n)
    else if |t| >= 2 && t[0] == '+' && IsDigits(t[1..]) then Some(DigitsValue(t[1..]))
    else None
  }

  /** `int` reads a bare digit string as its value. */
  lemma ParseIntDigits(d: string)
    requires IsDigits(d)
    ensures ParseInt(d) == Some(DigitsValue(d))
  {
    assert NoSpace(d) by {
      forall i | 0 <= i < |d| ensures !IsSpace(d[i]) {
        assert IsDigit(d[i]);
      }
    }
    StripNoSpace(d);
  }

  /** `int` reads a minus sign followed by a digit string as its negation. */
  lemma ParseIntNegative(d: string)
    requires IsDigits(d)
    ensures ParseInt("-" + d) == Some(-(DigitsValue(d) as int))
  {
    var s := "-" + d;
    assert s[1..] == d;
    assert !IsDigits(s) by {
      assert !IsDigit(s[0]);
    }
    assert !IsSpace(s[0]) && !IsSpace(s[|s| - 1]) by {
      assert s[|s| - 1] == d[|d| - 1];
      assert IsDigit(d[|d| - 1]);
    }
    StripNoSpace(s);
  }

  /** `int(str(i)) == i`. */
  lemma ParseIntRoundTrip(i: int)
    ensures ParseInt(IntToString(i)) == Some(i)
  {
    if i < 0 {
      DecimalValue(-i);
      ParseIntNegative(Decimal(-i));
    } else {
      DecimalValue(i);
      ParseIntDigits(Decimal(i));
    }
  }

  /** `str` is injective on integers. */
  lemma IntToStringInjective(a: int, b: int)
    requires IntToString(a) == IntToString(b)
    ensures a == b
  {
    ParseIntRoundTrip(a);
    ParseIntRoundTrip(b);
  }
}
