/** options_parse_hex_string: an even-length string of hexadecimal digits becomes the bytes
    it spells, two digits per byte, high nibble first. */
module Hex {
  import opened Wrappers

  /** A digit sscanf's %X conversion accepts, in either case. */
  predicate IsHexDigit(c: char) {
    '0' <= c <= '9' || 'a' <= c <= 'f' || 'A' <= c <= 'F'
  }

  predicate IsHexString(s: string) {
    forall k :: 0 <= k < |s| ==> IsHexDigit(s[k])
  }

  /** The value of one hex digit. */
  function DigitValue(c: char): (v: nat)
    requires IsHexDigit(c)
    ensures v < 16
  {
    if '0' <= c <= '9' then c as int - '0' as int
    else if 'a' <= c <= 'f' then c as int - 'a' as int + 10
    else c as int - 'A' as int + 10
  }

  /** The byte "%2X" reads from the two digits hi, lo. */
  function PairValue(hi: char, lo: char): (b: byte)
    requires IsHexDigit(hi) && IsHexDigit(lo)
  {
    (16 * DigitValue(hi) + DigitValue(lo)) as byte
  }

  /** The bytes an even-length hex string spells: byte k is read from digits 2k and 2k+1. */
  function Decode(s: string): (r: seq<byte>)
    requires |s| % 2 == 0 && IsHexString(s)
    ensures |r| == |s| / 2
    ensures forall k :: 0 <= k < |r| ==> r[k] == PairValue(s[2 * k], s[2 * k + 1])
    decreases |s|
  {
    if s == [] then []
    else
      var rest := Decode(s[2..]);
      assert forall k :: 1 <= k < |rest| + 1 ==> rest[k - 1] == PairValue(s[2 * k], s[2 * k + 1]) by {
        forall k | 1 <= k < |rest| + 1
          ensures rest[k - 1] == PairValue(s[2 * k], s[2 * k + 1])
        {
          assert s[2..][2 * (k - 1)] == s[2 * k] && s[2..][2 * (k - 1) + 1] == s[2 * k + 1];
        }
      }
      [PairValue(s[0], s[1])] + rest
  }

  /** Upper-case digits, as the inverse of Decode writes them. */
  const Digits: string := "0123456789ABCDEF"

  predicate IsUpperHexDigit(c: char) {
    '0' <= c <= '9' || 'A' <= c <= 'F'
  }

  /** The two upper-case digits of one byte, high nibble first. */
  function Spell(b: byte): (s: string)
    ensures |s| == 2 && IsUpperHexDigit(s[0]) && IsUpperHexDigit(s[1])
  {
    [Digits[b as int / 16], Digits[b as int % 16]]
  }

  /** "%2X" reads a spelled byte back. */
  lemma SpellRead(b: byte)
    ensures PairValue(Spell(b)[0], Spell(b)[1]) == b
  {
    DigitOf(b as int / 16);
    DigitOf(b as int % 16);
  }

  /** The digit Digits writes for a value reads back as that value. */
  lemma DigitOf(v: nat)
    requires v < 16
    ensures IsHexDigit(Digits[v]) && DigitValue(Digits[v]) == v
  {
  }

  /** The hex spelling of bytes, two upper-case digits each; Decode's inverse. */
  function Encode(bs: seq<byte>): (s: string)
    ensures |s| == 2 * |bs| && |s| % 2 == 0
    ensures forall k :: 0 <= k < |s| ==> IsUpperHexDigit(s[k])
    ensures IsHexString(s)
  {
    if bs == [] then [] else Spell(bs[0]) + Encode(bs[1..])
  }

  /** Decoding the spelling of any bytes gives the bytes back. */
  lemma {:induction false} DecodeEncode(bs: seq<byte>)
    ensures |Encode(bs)| % 2 == 0 && IsHexString(Encode(bs))
    ensures Decode(Encode(bs)) == bs
  {
    var s := Encode(bs);
    if bs != [] {
      DecodeEncode(bs[1..]);
      SpellRead(bs[0]);
      assert s[0] == Spell(bs[0])[0] && s[1] == Spell(bs[0])[1] && s[2..] == Encode(bs[1..]);
      assert IsHexDigit(s[0]) && IsHexDigit(s[1]);
      assert Decode(s) == [PairValue(s[0], s[1])] + Decode(s[2..]);
    }
  }

  /** Spelling the bytes of an upper-case hex string gives the string back. */
  lemma {:induction false} EncodeDecode(s: string)
    requires |s| % 2 == 0 && forall k :: 0 <= k < |s| ==> IsUpperHexDigit(s[k])
    ensures IsHexString(s) && Encode(Decode(s)) == s
  {
    if s != [] {
      EncodeDecode(s[2..]);
      ReadSpell(s[0], s[1]);
      assert Decode(s)[1..] == Decode(s[2..]);
      assert s == [s[0], s[1]] + s[2..];
    }
  }

  /** Spelling the byte two upper-case digits spell gives the digits back. */
  lemma ReadSpell(hi: char, lo: char)
    requires IsUpperHexDigit(hi) && IsUpperHexDigit(lo)
    ensures Spell(PairValue(hi, lo)) == [hi, lo]
  {
    var b := PairValue(hi, lo) as int;
    assert b / 16 == DigitValue(hi) && b % 16 == DigitValue(lo);
    UpperDigit(hi);
    UpperDigit(lo);
  }

  /** An upper-case digit is the entry of Digits at its value. */
  lemma UpperDigit(c: char)
    requires IsUpperHexDigit(c)
    ensures Digits[DigitValue(c)] == c
  {
  }

  /** A buffer_t: length bytes at buf. */
  class Buffer {
    var buf: array<byte>
    var length: nat

    constructor ()
      ensures buf.Length == 0 && length == 0
    {
      buf := new byte[0];
      length := 0;
    }
  }

  /** options_parse_hex_string: -1 when the string or the buffer is missing, 1 (buffer left
      alone) for an odd number of digits, otherwise 0 with the buffer replaced by the decoded
      bytes. sscanf's behaviour on non-digits is not modelled, so digits are demanded. */
  method ParseHexString(hex: Option<string>, buffer: Buffer?) returns (ret: int)
    requires hex.Some? && |hex.value| % 2 == 0 ==> IsHexString(hex.value)
    modifies buffer
    ensures ret == -1 <==> hex.None? || buffer == null
    ensures ret == 1 <==> hex.Some? && buffer != null && |hex.value| % 2 == 1
    ensures ret == -1 || ret == 1 || ret == 0
    ensures ret != 0 && buffer != null ==> unchanged(buffer)
    ensures ret == 0 ==>
      fresh(buffer.buf) && buffer.length == buffer.buf.Length && buffer.buf[..] == Decode(hex.value)
  {
    if hex.None? || buffer == null {
      return -1;
    }
    var h := hex.value;
    var len := |h|;
    if len % 2 == 1 {
      return 1;
    }
    buffer.length := len / 2;
    var b := new byte[buffer.length];
    buffer.buf := b;
    var at := 0;
    for i := 0 to buffer.length
      invariant at == 2 * i && buffer.buf == b
      invariant buffer.length == len / 2 && b.Length == len / 2
      invariant forall k :: 0 <= k < i ==> b[k] == PairValue(h[2 * k], h[2 * k + 1])
    {
      b[i] := PairValue(h[at], h[at + 1]);
      at := at + 2;
    }
    assert b[..] == Decode(h);
    ret := 0;
  }
}
