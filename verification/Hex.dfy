/** Lower-case hexadecimal, as the `hex` crate: encoding is lower case, decoding
    accepts either case and refuses odd lengths and foreign characters. */
module Hex {
  import opened Wrappers

  type byte = x: int | 0 <= x < 256

  function Digit(n: int): char
    requires 0 <= n < 16
  {
    if n < 10 then ('0' as int + n) as char else ('a' as int + n - 10) as char
  }

  predicate IsHexDigit(c: char) { '0' <= c <= '9' || 'a' <= c <= 'f' || 'A' <= c <= 'F' }

  function DigitValue(c: char): (v: int)
    requires IsHexDigit(c)
    ensures 0 <= v < 16
  {
    if c <= '9' then c as int - '0' as int
    else if c <= 'F' then c as int - 'A' as int + 10
    else c as int - 'a' as int + 10
  }

  function LowerChar(c: char): char
  {
    if 'A' <= c <= 'Z' then (c as int + 32) as char else c
  }

  function Lower(s: string): string
  {
    seq(|s|, i requires 0 <= i < |s| => LowerChar(s[i]))
  }

  predicate AllHex(s: string) { forall c | c in s :: IsHexDigit(c) }

  function Encode(bytes: seq<byte>): (s: string)
    ensures |s| == 2 * |bytes|
    ensures AllHex(s)
  {
    if bytes == [] then []
    else [Digit(bytes[0] / 16), Digit(bytes[0] % 16)] + Encode(bytes[1..])
  }

  function Decode(s: string): (r: Option<seq<byte>>)
    ensures r.Some? <==> |s| % 2 == 0 && AllHex(s)
    ensures r.Some? ==> 2 * |r.value| == |s|
  {
    if s == [] then Some([])
    else if |s| == 1 then None
    else
      var rest := Decode(s[2..]);
      assert s == [s[0], s[1]] + s[2..];
      if IsHexDigit(s[0]) && IsHexDigit(s[1]) && rest.Some? then
        Some([DigitValue(s[0]) * 16 + DigitValue(s[1])] + rest.value)
      else None
  }

  lemma {:induction false} DecodeEncode(bytes: seq<byte>)
    ensures Decode(Encode(bytes)) == Some(bytes)
  {
    if bytes != [] {
      DecodeEncode(bytes[1..]);
      assert Encode(bytes)[2..] == Encode(bytes[1..]);
      assert bytes == [bytes[0]] + bytes[1..];
    }
  }

  lemma NibbleRoundTrip(c: char, d: char)
    requires IsHexDigit(c) && IsHexDigit(d)
    ensures var b := DigitValue(c) * 16 + DigitValue(d);
            Digit(b / 16) == LowerChar(c) && Digit(b % 16) == LowerChar(d)
  {
    var b := DigitValue(c) * 16 + DigitValue(d);
    assert b / 16 == DigitValue(c) && b % 16 == DigitValue(d);
  }

  lemma DecodeStep(s: string)
    requires |s| >= 2 && Decode(s).Some?
    ensures Decode(s[2..]).Some? && IsHexDigit(s[0]) && IsHexDigit(s[1])
    ensures Decode(s).value == [DigitValue(s[0]) * 16 + DigitValue(s[1])] + Decode(s[2..]).value
  {
  }

  lemma LowerStep(s: string)
    requires |s| >= 2
    ensures Lower(s) == [LowerChar(s[0]), LowerChar(s[1])] + Lower(s[2..])
  {
  }

  /** Decoding forgets the case and nothing else. */
  lemma {:induction false} EncodeDecode(s: string)
    requires Decode(s).Some?
    ensures Encode(Decode(s).value) == Lower(s)
  {
    if s != [] {
      DecodeStep(s);
      LowerStep(s);
      EncodeDecode(s[2..]);
      NibbleRoundTrip(s[0], s[1]);
      var first: byte := DigitValue(s[0]) * 16 + DigitValue(s[1]);
      assert ([first] + Decode(s[2..]).value)[1..] == Decode(s[2..]).value;
    }
  }
}
