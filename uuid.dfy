/**
 * The two operations of the `github.com/google/uuid` package the auth code
 * uses: `UUID.String`, the canonical 36-character form, and `uuid.Parse`,
 * which also accepts the `urn:uuid:` form, a braced form and 32 bare digits.
 */
module Uuid {

  import opened Wrappers
  import opened Hex
  import Text

  /** A UUID is 16 bytes. */
  type UUID = s: seq<byte> | |s| == 16 witness [0, 0, 0, 0, 0, 0, 0, 0, 0, 0, 0, 0, 0, 0, 0, 0]

  /** `uuid.Nil`, the all-zero UUID. */
  const Nil: UUID := [0, 0, 0, 0, 0, 0, 0, 0, 0, 0, 0, 0, 0, 0, 0, 0]

  /** `UUID.String`: 8-4-4-4-12 lower-case hex digits separated by hyphens. */
  function ToString(u: UUID): string {
    HexEncode(u[..4]) + "-" + HexEncode(u[4..6]) + "-" + HexEncode(u[6..8]) + "-"
      + HexEncode(u[8..10]) + "-" + HexEncode(u[10..])
  }

  /** Hex decoding of exactly `n` bytes; the package's `xtob` accepts the same digits as `encoding/hex`. */
  function DecodeGroup(s: string, n: nat): (r: Option<seq<byte>>)
    ensures r.Some? ==> |r.value| == n
  {
    match HexDecode(s)
    case Some(b) => if |b| == n then Some(b) else None
    case None => None
  }

  /**
   * The hyphenated form in the first 36 characters of `s`: hyphens at 8, 13,
   * 18 and 23, and the digit groups between them.
   */
  function ParseHyphenated(s: string): Option<UUID>
    requires |s| >= 36
  {
    if s[8] != '-' || s[13] != '-' || s[18] != '-' || s[23] != '-' then None
    else
      match (DecodeGroup(s[..8], 4), DecodeGroup(s[9..13], 2), DecodeGroup(s[14..18], 2),
             DecodeGroup(s[19..23], 2), DecodeGroup(s[24..36], 6))
      case (Some(a), Some(b), Some(c), Some(d), Some(e)) => Some(a + b + c + d + e)
      case _ => None
  }

  /**
   * `uuid.Parse`. The package dispatches on the BYTE length of `s`; a string
   * holding any non-ASCII character is rejected in every branch (see README),
   * so the model rejects it first and then counts characters.
   */
  function Parse(s: string): (r: Option<UUID>)
    ensures r.Some? ==> Text.IsAscii(s) && (|s| == 32 || |s| == 36 || |s| == 38 || |s| == 45)
  {
    if !Text.IsAscii(s) then None
    else if |s| == 36 then ParseHyphenated(s)
    else if |s| == 36 + 9 then
      if Text.ToLower(s[..9]) == "urn:uuid:" then ParseHyphenated(s[9..]) else None
    else if |s| == 36 + 2 then ParseHyphenated(s[1..])
    else if |s| == 32 then
      match DecodeGroup(s, 16)
      case Some(b) => Some(b)
      case None => None
    else None
  }

  /** Appending a hyphen and a segment to a string keeps its prefix and places the segment after it. */
  lemma Extend(p: string, x: string)
    ensures |p + "-" + x| == |p| + 1 + |x|
    ensures (p + "-" + x)[..|p|] == p && (p + "-" + x)[|p|] == '-'
    ensures (p + "-" + x)[|p| + 1..] == x
  {
  }

  /** The canonical form: hyphens at 8, 13, 18, 23 and the encoded byte groups between them. */
  lemma ToStringLayout(u: UUID)
    ensures |ToString(u)| == 36
    ensures ToString(u)[8] == '-' && ToString(u)[13] == '-' && ToString(u)[18] == '-' && ToString(u)[23] == '-'
    ensures ToString(u)[..8] == HexEncode(u[..4]) && ToString(u)[9..13] == HexEncode(u[4..6])
    ensures ToString(u)[14..18] == HexEncode(u[6..8]) && ToString(u)[19..23] == HexEncode(u[8..10])
    ensures ToString(u)[24..36] == HexEncode(u[10..])
  {
    HexEncodeAt(u[..4]); HexEncodeAt(u[4..6]); HexEncodeAt(u[6..8]);
    HexEncodeAt(u[8..10]); HexEncodeAt(u[10..]);
    var p0 := HexEncode(u[..4]);
    var p1 := p0 + "-" + HexEncode(u[4..6]);
    var p2 := p1 + "-" + HexEncode(u[6..8]);
    var p3 := p2 + "-" + HexEncode(u[8..10]);
    var s := p3 + "-" + HexEncode(u[10..]);
    assert s == ToString(u);
    Extend(p0, HexEncode(u[4..6]));
    Extend(p1, HexEncode(u[6..8]));
    Extend(p2, HexEncode(u[8..10]));
    Extend(p3, HexEncode(u[10..]));
    assert s[..23] == p3 && s[..18] == p2 && s[..13] == p1 && s[..8] == p0;
    assert s[9..13] == p1[9..13] && s[14..18] == p2[14..18] && s[19..23] == p3[19..23];
  }

  /** The canonical form is ASCII. */
  lemma ToStringAscii(u: UUID)
    ensures Text.IsAscii(ToString(u))
  {
    var a, b, c, d, e := u[..4], u[4..6], u[6..8], u[8..10], u[10..];
    HexEncodeLowerCase(a); HexEncodeLowerCase(b); HexEncodeLowerCase(c);
    HexEncodeLowerCase(d); HexEncodeLowerCase(e);
  }

  /** `uuid.Parse(u.String()) == u`: the subject claim of a minted token parses back to its user. */
  lemma ParseToString(u: UUID)
    ensures Parse(ToString(u)) == Some(u)
  {
    var s := ToString(u);
    ToStringLayout(u);
    ToStringAscii(u);
    HexRoundTrip(u[..4]); HexRoundTrip(u[4..6]); HexRoundTrip(u[6..8]);
    HexRoundTrip(u[8..10]); HexRoundTrip(u[10..]);
    assert u[..4] + u[4..6] + u[6..8] + u[8..10] + u[10..] == u;
  }

  /** An empty subject is not a UUID. */
  lemma ParseEmpty()
    ensures Parse("") == None
  {
  }
}
