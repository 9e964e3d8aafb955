/**
 * Base16 as Go's `encoding/hex` does it (section 8 of RFC 4648): encoding
 * writes lower-case digits, decoding accepts either case.
 */
module Hex {

  import opened Wrappers

  newtype byte = x: int | 0 <= x < 256

  const Digits: string := "0123456789abcdef"

  predicate IsLowerHexDigit(c: char) {
    '0' <= c <= '9' || 'a' <= c <= 'f'
  }

  /** The value of one hex digit of either case, as `hex.DecodeString` reads it. */
  function FromHexChar(c: char): (r: Option<nat>)
    ensures r.Some? ==> r.value < 16
    ensures r.Some? <==> '0' <= c <= '9' || 'a' <= c <= 'f' || 'A' <= c <= 'F'
  {
    if '0' <= c <= '9' then Some(c as int - '0' as int)
    else if 'a' <= c <= 'f' then Some(c as int - 'a' as int + 10)
    else if 'A' <= c <= 'F' then Some(c as int - 'A' as int + 10)
    else None
  }

  /** The two digits, high nibble first, that encode one byte. */
  function EncodeByte(b: byte): string {
    [Digits[b as int / 16], Digits[b as int % 16]]
  }

  /** `hex.EncodeToString`. */
  function HexEncode(b: seq<byte>): string {
    if b == [] then "" else EncodeByte(b[0]) + HexEncode(b[1..])
  }

  /** `hex.DecodeString`: `None` for an odd length or a character that is not a hex digit. */
  function HexDecode(s: string): (r: Option<seq<byte>>)
    ensures |s| % 2 == 1 ==> r.None?
    ensures r.Some? ==> |s| == 2 * |r.value|
  {
    if s == [] then Some([])
    else if |s| == 1 then None
    else
      match (FromHexChar(s[0]), FromHexChar(s[1]), HexDecode(s[2..]))
      case (Some(hi), Some(lo), Some(rest)) => Some([(hi * 16 + lo) as byte] + rest)
      case _ => None
  }

  /** Encoding one more byte appends its two digits. */
  lemma {:induction false} HexEncodeSnoc(b: seq<byte>, x: byte)
    ensures HexEncode(b + [x]) == HexEncode(b) + EncodeByte(x)
  {
    if b == [] {
      assert b + [x] == [x];
    } else {
      assert (b + [x])[1..] == b[1..] + [x];
      HexEncodeSnoc(b[1..], x);
    }
  }

  /** The encoding has two digits per byte: the digit of the high nibble, then of the low one. */
  lemma {:induction false} HexEncodeAt(b: seq<byte>)
    ensures |HexEncode(b)| == 2 * |b|
    ensures forall k :: 0 <= k < |b| ==>
      HexEncode(b)[2 * k] == Digits[b[k] as int / 16] && HexEncode(b)[2 * k + 1] == Digits[b[k] as int % 16]
  {
    if b != [] {
      HexEncodeAt(b[1..]);
      forall k | 0 <= k < |b|
        ensures HexEncode(b)[2 * k] == Digits[b[k] as int / 16]
        ensures HexEncode(b)[2 * k + 1] == Digits[b[k] as int % 16]
      {
        if k > 0 {
          assert b[k] == b[1..][k - 1];
          assert HexEncode(b)[2 * k] == HexEncode(b[1..])[2 * (k - 1)];
          assert HexEncode(b)[2 * k + 1] == HexEncode(b[1..])[2 * (k - 1) + 1];
        }
      }
    }
  }

  /** Every character of an encoding is a lower-case hex digit. */
  lemma HexEncodeLowerCase(b: seq<byte>)
    ensures forall k :: 0 <= k < |HexEncode(b)| ==> IsLowerHexDigit(HexEncode(b)[k])
  {
    HexEncodeAt(b);
    forall k | 0 <= k < |HexEncode(b)| ensures IsLowerHexDigit(HexEncode(b)[k]) {
      if k % 2 == 0 {
        assert HexEncode(b)[2 * (k / 2)] == Digits[b[k / 2] as int / 16];
      } else {
        assert HexEncode(b)[2 * (k / 2) + 1] == Digits[b[k / 2] as int % 16];
      }
    }
  }

  /** Each digit of the alphabet decodes to its position in it. */
  lemma DigitValue(v: nat)
    requires v < 16
    ensures FromHexChar(Digits[v]) == Some(v)
  {
  }

  /** Decoding an encoding gives back the bytes. */
  lemma {:induction false} HexRoundTrip(b: seq<byte>)
    ensures HexDecode(HexEncode(b)) == Some(b)
  {
    if b != [] {
      var s := HexEncode(b);
      HexRoundTrip(b[1..]);
      assert s[2..] == HexEncode(b[1..]);
      DigitValue(b[0] as int / 16);
      DigitValue(b[0] as int % 16);
      assert (b[0] as int / 16) * 16 + b[0] as int % 16 == b[0] as int;
      assert [b[0]] + b[1..] == b;
    }
  }
}
