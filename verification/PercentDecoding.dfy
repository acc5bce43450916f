/** Percent decoding of request paths (section 2.1 of RFC 3986), refusing encoded NUL. */
module PercentDecoding {
  import opened Text

  function HexValue(c: char): int {
    if '0' <= c <= '9' then c as int - '0' as int
    else if 'a' <= c <= 'f' then c as int - 'a' as int + 10
    else if 'A' <= c <= 'F' then c as int - 'A' as int + 10
    else -1
  }

  /** Two hexadecimal digits that name a byte other than NUL start at `i`. */
  predicate EscapeAt(input: string, i: nat) {
    && i + 2 < |input|
    && HexValue(input[i + 1]) >= 0 && HexValue(input[i + 2]) >= 0
    && HexValue(input[i + 1]) * 16 + HexValue(input[i + 2]) != 0
  }

  function ByteAt(input: string, i: nat): char
    requires EscapeAt(input, i)
  {
    (HexValue(input[i + 1]) * 16 + HexValue(input[i + 2])) as char
  }

  function Append(head: string, tail: Option<string>): Option<string> {
    if tail.None? then None else Some(head + tail.value)
  }

  function Decode(input: string): Option<string>
    decreases |input|
  {
    if input == "" then Some("")
    else if input[0] != '%' then Append([input[0]], Decode(input[1..]))
    else if !EscapeAt(input, 0) then None
    else Append([ByteAt(input, 0)], Decode(input[3..]))
  }

  /** `percent_decode`: one pass with an index that skips the two digits of an escape. */
  method PercentDecode(input: string) returns (r: Option<string>)
    ensures r == Decode(input)
  {
    var output := "";
    var i := 0;
    assert input[0..] == input;
    AppendNothing(Decode(input));
    while i < |input|
      invariant 0 <= i <= |input|
      invariant Decode(input) == Append(output, Decode(input[i..]))
    {
      var rest := input[i..];
      if input[i] != '%' {
        AppendTwice(output, [input[i]], Decode(rest[1..]));
        assert rest[1..] == input[i + 1..];
        output := output + [input[i]];
        i := i + 1;
      } else {
        if i + 2 >= |input| {
          return None;
        }
        var high, low := HexValue(input[i + 1]), HexValue(input[i + 2]);
        assert rest[1] == input[i + 1] && rest[2] == input[i + 2];
        if high < 0 || low < 0 {
          return None;
        }
        if high * 16 + low == 0 {
          return None;
        }
        var decoded := (high * 16 + low) as char;
        AppendTwice(output, [decoded], Decode(rest[3..]));
        assert rest[3..] == input[i + 3..];
        output := output + [decoded];
        i := i + 3;
      }
    }
    assert input[i..] == "" && output + "" == output;
    return Some(output);
  }

  lemma AppendTwice(a: string, b: string, t: Option<string>)
    ensures Append(a, Append(b, t)) == Append(a + b, t)
  {
    if t.Some? {
      assert a + (b + t.value) == a + b + t.value;
    }
  }

  /** Every percent sign starts a valid escape. A digit is never a percent sign, so no sign can
      hide inside another escape. */
  ghost predicate Scannable(input: string) {
    forall i: nat :: i < |input| && input[i] == '%' ==> EscapeAt(input, i)
  }

  lemma EscapeShift(input: string, k: nat, rest: string, i: nat)
    requires k <= |input| && rest == input[k..]
    ensures EscapeAt(rest, i) <==> EscapeAt(input, k + i)
  {
  }

  lemma ScannableTail(input: string, k: nat, rest: string)
    requires k <= |input| && rest == input[k..]
    requires forall i: nat :: i < k && input[i] == '%' ==> EscapeAt(input, i)
    ensures Scannable(input) <==> Scannable(rest)
  {
    forall i: nat | i < |rest| ensures rest[i] == input[k + i] && (EscapeAt(rest, i) <==> EscapeAt(input, k + i)) {
      EscapeShift(input, k, rest, i);
    }
    if Scannable(rest) {
      forall i: nat | i < |input| && input[i] == '%' ensures EscapeAt(input, i) {
        if i >= k {
          assert rest[i - k] == input[i];
          EscapeShift(input, k, rest, i - k);
        }
      }
    }
    if Scannable(input) {
      forall i: nat | i < |rest| && rest[i] == '%' ensures EscapeAt(rest, i) {
        assert input[k + i] == '%';
      }
    }
  }

  lemma {:induction false} DecodeScans(input: string)
    ensures Decode(input).Some? <==> Scannable(input)
    decreases |input|
  {
    hide EscapeAt;
    if input == "" {
    } else if input[0] != '%' {
      ScannableTail(input, 1, input[1..]);
      DecodeScans(input[1..]);
    } else if EscapeAt(input, 0) {
      DigitsAreNotSigns(input);
      ScannableTail(input, 3, input[3..]);
      DecodeScans(input[3..]);
    }
  }

  lemma DigitsAreNotSigns(input: string)
    requires EscapeAt(input, 0)
    ensures |input| >= 3 && input[1] != '%' && input[2] != '%'
  {
  }

  /** The hexadecimal digits, by the codes of ASCII. */
  predicate IsHex(c: char) {
    var code := c as int;
    48 <= code <= 57 || 65 <= code <= 70 || 97 <= code <= 102
  }

  /** Two digits in either case, not both zero, stand behind `i`. */
  predicate EscapeWritten(input: string, i: nat) {
    && i + 2 < |input| && IsHex(input[i + 1]) && IsHex(input[i + 2])
    && !(input[i + 1] == '0' && input[i + 2] == '0')
  }

  lemma EscapeIs(input: string, i: nat)
    ensures EscapeAt(input, i) <==> EscapeWritten(input, i)
  {
  }

  ghost predicate WellEscaped(input: string) {
    forall i: nat :: i < |input| && input[i] == '%' ==> EscapeWritten(input, i)
  }

  /** Decoding succeeds exactly on the inputs in which every percent sign starts an escape. */
  lemma DecodeSucceeds(input: string)
    ensures Decode(input).Some? <==> WellEscaped(input)
  {
    hide Decode, EscapeAt, EscapeWritten;
    DecodeScans(input);
    forall i: nat | i < |input| ensures EscapeAt(input, i) <==> EscapeWritten(input, i) {
      EscapeIs(input, i);
    }
  }

  /** Decoding goes on behind what it has decoded. */
  lemma {:induction false} DecodeBehind(a: string, b: string)
    requires Decode(a).Some?
    ensures Decode(a + b) == Append(Decode(a).value, Decode(b))
    decreases |a|
  {
    hide EscapeAt, ByteAt;
    var s := a + b;
    if a == "" {
      assert s == b;
      AppendNothing(Decode(b));
    } else if a[0] != '%' {
      assert s[1..] == a[1..] + b;
      DecodeBehind(a[1..], b);
      AppendTwice([a[0]], Decode(a[1..]).value, Decode(b));
    } else {
      EscapeInPrefix(a, b);
      assert s[3..] == a[3..] + b;
      DecodeBehind(a[3..], b);
      AppendTwice([ByteAt(a, 0)], Decode(a[3..]).value, Decode(b));
    }
  }

  /** The cut between the two parts lies inside an escape. */
  predicate Splits(a: string, b: string) {
    exists i :: 0 <= i < |a| < i + 3 && (a + b)[i] == '%' && EscapeWritten(a + b, i)
  }

  /** Decoding distributes over concatenation when the cut is not inside an escape; in particular a part
      that cannot be decoded spoils the whole. */
  lemma DecodeConcat(a: string, b: string)
    requires !Splits(a, b)
    ensures Decode(a + b) == if Decode(a).None? then None else Append(Decode(a).value, Decode(b))
  {
    hide Decode;
    if Decode(a).Some? {
      DecodeBehind(a, b);
    } else {
      var s := a + b;
      DecodeSucceeds(a);
      DecodeSucceeds(s);
      var i: nat :| i < |a| && a[i] == '%' && !EscapeWritten(a, i);
      assert s[i] == '%';
      assert !EscapeWritten(s, i);
    }
  }

  lemma AppendNothing(t: Option<string>)
    ensures Append("", t) == t
  {
    if t.Some? {
      assert "" + t.value == t.value;
    }
  }

  lemma EscapeInPrefix(a: string, b: string)
    requires EscapeAt(a, 0)
    ensures |a| >= 3 && EscapeAt(a + b, 0) && ByteAt(a + b, 0) == ByteAt(a, 0)
  {
  }

  // ------------------------------------------------------------------------ encoding

  /** A digit in the case the encoder prefers. */
  function HexDigit(d: nat, small: bool): char
    requires d < 16
  {
    if small then "0123456789abcdef"[d] else "0123456789ABCDEF"[d]
  }

  predicate IsByte(c: char) { c as int < 256 }

  predicate AreBytes(s: string) { forall i :: 0 <= i < |s| ==> IsByte(s[i]) }

  function Escape(c: char, first: bool, second: bool): string
    requires IsByte(c)
  {
    ['%', HexDigit(c as int / 16, first), HexDigit(c as int % 16, second)]
  }

  /** An encoder may escape any characters it likes, with digits in either case, but must escape the
      percent sign. */
  ghost function Encode(s: string, escape: char -> bool, small: (char, bool) -> bool): string
    requires AreBytes(s)
  {
    if s == "" then "" else
    assert IsByte(s[0]);
    (if s[0] == '%' || escape(s[0]) then Escape(s[0], small(s[0], true), small(s[0], false)) else [s[0]])
    + Encode(s[1..], escape, small)
  }

  lemma EscapeDecodes(c: char, first: bool, second: bool)
    requires IsByte(c)
    ensures Decode(Escape(c, first, second)) == if c == '\0' then None else Some([c])
  {
    hide HexDigit, HexValue;
    var e := Escape(c, first, second);
    HexDigitReads(c as int / 16, first);
    HexDigitReads(c as int % 16, second);
    assert e[3..] == "";
    assert Decode("") == Some("");
    if c != '\0' {
      assert ByteAt(e, 0) == c;
      assert [c] + "" == [c];
    }
  }

  lemma HexDigitReads(d: nat, small: bool)
    requires d < 16
    ensures HexValue(HexDigit(d, small)) == d
  {
  }

  lemma LiteralDecodes(c: char)
    requires c != '%'
    ensures Decode([c]) == Some([c])
  {
    assert [c][1..] == "";
    assert Decode("") == Some("");
    assert [c] + "" == [c];
  }

  /** Decoding undoes every encoding, for every choice of escaped characters and of digits, exactly when no
      NUL was escaped. */
  lemma {:induction false} DecodeEncode(s: string, escape: char -> bool, small: (char, bool) -> bool)
    requires AreBytes(s)
    ensures Decode(Encode(s, escape, small)) == Some(s) <==> !('\0' in s && escape('\0'))
    ensures Decode(Encode(s, escape, small)) == None <==> '\0' in s && escape('\0')
    decreases |s|
  {
    hide Decode, Escape;
    if s == "" {
      DecodeNothing();
    } else {
      var c, rest := s[0], s[1..];
      assert s == [c] + rest && IsByte(c);
      DecodeEncode(rest, escape, small);
      var tail := Encode(rest, escape, small);
      if c == '%' || escape(c) {
        var first, second := small(c, true), small(c, false);
        EscapeDecodes(c, first, second);
        if c == '\0' {
          EscapedNulFails(first, second, tail);
        } else {
          DecodeBehind(Escape(c, first, second), tail);
        }
      } else {
        LiteralDecodes(c);
        DecodeBehind([c], tail);
      }
    }
  }

  lemma DecodeNothing()
    ensures Decode("") == Some("")
  {
  }

  lemma EscapedNulFails(first: bool, second: bool, t: string)
    ensures Decode(Escape('\0', first, second) + t) == None
  {
    var s := Escape('\0', first, second) + t;
    assert s[0] == '%' && s[1] == '0' && s[2] == '0';
  }

  // ---------------------------------------------------------------- all texts of a string

  /** The text stands for the character: itself, or its escape with digits in either case. NUL has no
      escape. */
  predicate StandsFor(text: string, c: char) {
    || (text == [c] && c != '%')
    || (IsByte(c) && c != '\0' && exists first, second :: text == Escape(c, first, second))
  }

  /** The text is the string written character by character. */
  ghost predicate Writes(text: string, s: string)
    decreases |s|
  {
    if s == "" then text == ""
    else exists k :: 0 < k <= |text| && StandsFor(text[..k], s[0]) && Writes(text[k..], s[1..])
  }

  lemma StandsForDecodes(text: string, c: char)
    requires StandsFor(text, c)
    ensures Decode(text) == Some([c])
  {
    hide Decode, Escape;
    if text == [c] && c != '%' {
      LiteralDecodes(c);
    } else {
      var first, second :| text == Escape(c, first, second);
      EscapeDecodes(c, first, second);
    }
  }

  lemma {:induction false} WrittenDecodes(text: string, s: string)
    requires Writes(text, s)
    ensures Decode(text) == Some(s)
    decreases |s|
  {
    hide Decode, StandsFor;
    if s == "" {
      DecodeNothing();
    } else {
      var k :| 0 < k <= |text| && StandsFor(text[..k], s[0]) && Writes(text[k..], s[1..]);
      WrittenDecodes(text[k..], s[1..]);
      StandsForDecodes(text[..k], s[0]);
      DecodeBehind(text[..k], text[k..]);
      assert text[..k] + text[k..] == text;
      assert [s[0]] + s[1..] == s;
    }
  }

  lemma EscapeStandsFor(text: string)
    requires |text| == 3 && text[0] == '%' && EscapeAt(text, 0)
    ensures StandsFor(text, ByteAt(text, 0))
  {
    var high, low := HexValue(text[1]), HexValue(text[2]);
    var c := ByteAt(text, 0);
    assert c as int / 16 == high && c as int % 16 == low;
    var first, second := text[1] >= 'a', text[2] >= 'a';
    HexReads(text[1]);
    HexReads(text[2]);
    hide HexDigit, HexValue;
    assert text == Escape(c, first, second);
  }

  lemma HexReads(c: char)
    requires HexValue(c) >= 0
    ensures HexValue(c) < 16 && HexDigit(HexValue(c), c >= 'a') == c
  {
  }

  lemma {:induction false} DecodedIsWritten(text: string)
    requires Decode(text).Some?
    ensures Writes(text, Decode(text).value)
    decreases |text|
  {
    hide StandsFor, EscapeAt, ByteAt;
    if text != "" {
      var k := if text[0] != '%' then 1 else 3;
      ScansOne(text, k);
      DecodedIsWritten(text[k..]);
      hide Decode;
      var s := Decode(text).value;
      assert s[1..] == Decode(text[k..]).value;
    }
  }

  /** The first character read and the text it was read from. */
  lemma ScansOne(text: string, k: nat)
    requires text != "" && Decode(text).Some? && k == if text[0] != '%' then 1 else 3
    ensures k <= |text| && Decode(text[k..]).Some?
    ensures var s := Decode(text).value;
            s != "" && StandsFor(text[..k], s[0]) && s == [s[0]] + Decode(text[k..]).value
  {
    hide EscapeAt, ByteAt;
    if k == 1 {
      assert text[..1] == [text[0]];
    } else {
      hide StandsFor;
      DigitsAreNotSigns(text);
      FrontEscape(text, text[..3]);
      EscapeStandsFor(text[..3]);
    }
  }

  lemma FrontEscape(text: string, front: string)
    requires EscapeAt(text, 0) && front == text[..3]
    ensures |front| == 3 && front[0] == text[0] && EscapeAt(front, 0) && ByteAt(front, 0) == ByteAt(text, 0)
  {
    hide HexValue;
    assert front[1] == text[1] && front[2] == text[2];
  }

  /** Decoding yields a string exactly from the texts that write it. */
  lemma DecodeExactly(text: string, s: string)
    ensures Decode(text) == Some(s) <==> Writes(text, s)
  {
    hide Decode, Writes;
    if Decode(text) == Some(s) {
      DecodedIsWritten(text);
    }
    if Writes(text, s) {
      WrittenDecodes(text, s);
    }
  }
}
