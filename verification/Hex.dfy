/** `bytes.hex()` and `bytes.fromhex()`. */
module Hex {
  import opened Wrappers

  newtype byte = x: int | 0 <= x < 256

  type Bytes = seq<byte>

  const DIGITS: string := "0123456789abcdef"

  function Encode(b: Bytes): (s: string)
    ensures |s| == 2 * |b|
  {
    if b == [] then "" else [DIGITS[b[0] as int / 16], DIGITS[b[0] as int % 16]] + Encode(b[1..])
  }

  function Digit(c: char): (digit: Option<int>)
    ensures digit.Some? ==> 0 <= digit.value < 16
  {
    if '0' <= c <= '9' then Some(c as int - '0' as int)
    else if 'a' <= c <= 'f' then Some(c as int - 'a' as int + 10)
    else if 'A' <= c <= 'F' then Some(c as int - 'A' as int + 10)
    else None
  }

  predicate IsAsciiSpace(c: char) {
    c == ' ' || '\t' <= c <= '\r'
  }

  /** White space is skipped before a byte but not inside one; anything else is an error. */
  function Decode(s: string): Option<Bytes> {
    if s == "" then Some([])
    else if IsAsciiSpace(s[0]) then Decode(s[1..])
    else if |s| < 2 then None
    else match (Digit(s[0]), Digit(s[1]), Decode(s[2..]))
      case (Some(high), Some(low), Some(rest)) => Some([(16 * high + low) as byte] + rest)
      case _ => None
  }

  lemma DigitOf(n: int)
    requires 0 <= n < 16
    ensures Digit(DIGITS[n]) == Some(n) && !IsAsciiSpace(DIGITS[n])
  {
    assert DIGITS[n] == if n < 10 then '0' + n as char else 'a' + (n - 10) as char;
  }

  lemma {:induction false} RoundTrip(b: Bytes)
    ensures Decode(Encode(b)) == Some(b)
  {
    if b != [] {
      RoundTrip(b[1..]);
      DecodePair(b[0], Encode(b[1..]), b[1..]);
      assert b == [b[0]] + b[1..];
    }
  }

  lemma DecodePair(x: byte, rest: string, b: Bytes)
    requires Decode(rest) == Some(b)
    ensures Decode([DIGITS[x as int / 16], DIGITS[x as int % 16]] + rest) == Some([x] + b)
  {
    var high, low := x as int / 16, x as int % 16;
    var s := [DIGITS[high], DIGITS[low]] + rest;
    DigitOf(high);
    DigitOf(low);
    assert s[2..] == rest;
    DecodeStep(s, high, low, b);
  }

  lemma DecodeStep(s: string, high: int, low: int, b: Bytes)
    requires |s| >= 2 && !IsAsciiSpace(s[0]) && 0 <= high < 16 && 0 <= low < 16
    requires Digit(s[0]) == Some(high) && Digit(s[1]) == Some(low) && Decode(s[2..]) == Some(b)
    ensures Decode(s) == Some([(16 * high + low) as byte] + b)
  {
  }

  /** The text has two lower-case digits a byte, the high one first. */
  lemma {:induction false} EncodedDigits(b: Bytes, i: nat)
    requires i < |b|
    ensures Encode(b)[2 * i] == "0123456789abcdef"[b[i] as int / 16]
    ensures Encode(b)[2 * i + 1] == "0123456789abcdef"[b[i] as int % 16]
  {
    if i > 0 {
      EncodedDigits(b[1..], i - 1);
    }
  }

  /** The digits of either case. */
  predicate HasValue(c: char, v: int) {
    0 <= v < 16 && (c == "0123456789abcdef"[v] || c == "0123456789ABCDEF"[v])
  }

  lemma DigitExactly(c: char, v: int)
    ensures Digit(c) == Some(v) <==> HasValue(c, v)
  {
    if 0 <= v < 16 {
      assert "0123456789abcdef"[v] == if v < 10 then '0' + v as char else 'a' + (v - 10) as char;
      assert "0123456789ABCDEF"[v] == if v < 10 then '0' + v as char else 'A' + (v - 10) as char;
    }
  }

  /** The six characters of ASCII white space. */
  lemma AsciiSpacesAre(c: char)
    ensures IsAsciiSpace(c) <==> c in ['\U{20}', '\U{09}', '\U{0a}', '\U{0b}', '\U{0c}', '\U{0d}']
  {
  }

  predicate HasSpace(s: string) {
    exists c <- s :: IsAsciiSpace(c)
  }

  /** Two digits for each byte, the high one first. */
  ghost predicate Spells(s: string, b: Bytes) {
    && |s| == 2 * |b|
    && forall i | 0 <= i < |b| :: HasValue(s[2 * i], b[i] as int / 16) && HasValue(s[2 * i + 1], b[i] as int % 16)
  }

  /** Text without white space decodes to what it spells, and to nothing when it spells nothing. */
  lemma DecodeExactly(s: string, b: Bytes)
    requires !HasSpace(s)
    ensures Decode(s) == Some(b) <==> Spells(s, b)
  {
    DecodeDigits(s, b);
    if |s| == 2 * |b| {
      forall i | 0 <= i < |b|
        ensures IsPair(s, b, i) <==> HasValue(s[2 * i], b[i] as int / 16) && HasValue(s[2 * i + 1], b[i] as int % 16)
      {
        DigitExactly(s[2 * i], b[i] as int / 16);
        DigitExactly(s[2 * i + 1], b[i] as int % 16);
      }
    }
  }

  ghost predicate IsPair(s: string, b: Bytes, i: nat)
    requires |s| == 2 * |b| && i < |b|
  {
    Digit(s[2 * i]) == Some(b[i] as int / 16) && Digit(s[2 * i + 1]) == Some(b[i] as int % 16)
  }

  ghost predicate ArePairs(s: string, b: Bytes) {
    |s| == 2 * |b| && forall i: nat | i < |b| :: IsPair(s, b, i)
  }

  lemma {:induction false} DecodeDigits(s: string, b: Bytes)
    requires !HasSpace(s)
    ensures Decode(s) == Some(b) <==> ArePairs(s, b)
  {
    if |s| < 2 {
      assert s != "" ==> s[0] in s;
    } else {
      assert s[0] in s && forall c <- s[2..] :: c in s;
      if b == [] {
        DecodesToBytes(s);
      } else {
        DecodeDigits(s[2..], b[1..]);
        DecodeFirst(s, b);
        PairsFirst(s, b);
      }
    }
  }

  lemma DecodesToBytes(s: string)
    requires |s| >= 2 && !IsAsciiSpace(s[0])
    ensures Decode(s) != Some([])
  {
  }

  lemma DecodeFirst(s: string, b: Bytes)
    requires |s| >= 2 && !IsAsciiSpace(s[0]) && b != []
    ensures Decode(s) == Some(b)
            <==> Digit(s[0]) == Some(b[0] as int / 16) && Digit(s[1]) == Some(b[0] as int % 16) && Decode(s[2..]) == Some(b[1..])
  {
    var x := b[0] as int;
    if Digit(s[0]) == Some(x / 16) && Digit(s[1]) == Some(x % 16) && Decode(s[2..]) == Some(b[1..]) {
      DecodeStep(s, x / 16, x % 16, b[1..]);
      assert b == [b[0]] + b[1..];
    }
    if Decode(s) == Some(b) {
      var high, low, rest := DecodedParts(s, b);
      Nibbles(x, high, low);
    }
  }

  lemma DecodedParts(s: string, b: Bytes) returns (high: int, low: int, rest: Bytes)
    requires |s| >= 2 && !IsAsciiSpace(s[0]) && Decode(s) == Some(b)
    ensures Digit(s[0]) == Some(high) && Digit(s[1]) == Some(low) && Decode(s[2..]) == Some(rest)
    ensures 0 <= high < 16 && 0 <= low < 16 && b != [] && b[0] as int == 16 * high + low && b[1..] == rest
  {
    high, low, rest := Digit(s[0]).value, Digit(s[1]).value, Decode(s[2..]).value;
    assert b == [(16 * high + low) as byte] + rest;
  }

  lemma Nibbles(x: int, high: int, low: int)
    requires x == 16 * high + low && 0 <= low < 16
    ensures x / 16 == high && x % 16 == low
  {
  }

  lemma PairsFirst(s: string, b: Bytes)
    requires |s| >= 2 && b != []
    ensures ArePairs(s, b)
            <==> Digit(s[0]) == Some(b[0] as int / 16) && Digit(s[1]) == Some(b[0] as int % 16) && ArePairs(s[2..], b[1..])
  {
    if |s| == 2 * |b| {
      forall i: nat | i < |b| - 1
        ensures IsPair(s, b, i + 1) <==> IsPair(s[2..], b[1..], i)
      {
      }
      assert ArePairs(s, b) ==> IsPair(s, b, 0);
      if ArePairs(s[2..], b[1..]) && IsPair(s, b, 0) {
        forall i: nat | i < |b|
          ensures IsPair(s, b, i)
        {
          if i > 0 {
            assert IsPair(s[2..], b[1..], i - 1);
          }
        }
      }
      if ArePairs(s, b) {
        forall i: nat | i < |b[1..]|
          ensures IsPair(s[2..], b[1..], i)
        {
          assert IsPair(s, b, i + 1);
        }
      }
    }
  }

  /** White space before a byte is skipped; inside a byte it is an error. */
  lemma DecodeSpace(c: char, d: char, s: string)
    requires IsAsciiSpace(c) && !IsAsciiSpace(d)
    ensures Decode([c] + s) == Decode(s)
    ensures Decode([d, c] + s) == None
  {
    assert ([c] + s)[1..] == s;
    assert ([d, c] + s)[0] == d && ([d, c] + s)[1] == c;
  }

  /** Two payloads with the same hexadecimal text are the same payload. */
  lemma EncodeIsInjective(a: Bytes, b: Bytes)
    requires Encode(a) == Encode(b)
    ensures a == b
  {
    RoundTrip(a);
    RoundTrip(b);
  }
}
