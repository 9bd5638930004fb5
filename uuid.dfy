/**
 * Region and syntax identifiers (LLUUID): sixteen bytes, written as
 * 32 lower-case hexadecimal digits in the groups 8-4-4-4-12.
 */
module Uuids {
  import opened Wrappers

  newtype byte = x: int | 0 <= x < 256

  type Uuid = s: seq<byte> | |s| == 16
    witness [0, 0, 0, 0, 0, 0, 0, 0, 0, 0, 0, 0, 0, 0, 0, 0]

  /** The null id (LLUUID::null): every byte zero. */
  const NullUuid: Uuid := [0, 0, 0, 0, 0, 0, 0, 0, 0, 0, 0, 0, 0, 0, 0, 0]

  predicate IsNull(u: Uuid) {
    u == NullUuid
  }

  const HexDigits: string := "0123456789abcdef"

  function HexChar(n: int): char
    requires 0 <= n < 16
  {
    HexDigits[n]
  }

  /** The value of one hexadecimal digit, in either case. */
  function HexValue(c: char): (r: Option<int>)
    ensures r.Some? ==> 0 <= r.value < 16
  {
    if '0' <= c <= '9' then Some(c as int - '0' as int)
    else if 'a' <= c <= 'f' then Some(c as int - 'a' as int + 10)
    else if 'A' <= c <= 'F' then Some(c as int - 'A' as int + 10)
    else None
  }

  lemma HexValueOfHexChar(n: int)
    requires 0 <= n < 16
    ensures HexValue(HexChar(n)) == Some(n)
  {
  }

  /** Two digits per byte, high nibble first. */
  function HexOf(bs: seq<byte>): (s: string)
    ensures |s| == 2 * |bs|
  {
    seq(2 * |bs|, i requires 0 <= i < 2 * |bs| =>
      if i % 2 == 0 then HexChar(bs[i / 2] as int / 16) else HexChar(bs[i / 2] as int % 16))
  }

  function ParseHex(s: string): (r: Option<seq<byte>>)
    ensures r.Some? ==> 2 * |r.value| == |s|
  {
    if |s| == 0 then Some([])
    else if |s| == 1 then None
    else
      match (HexValue(s[0]), HexValue(s[1]), ParseHex(s[2..]))
      case (Some(hi), Some(lo), Some(rest)) => Some([(hi * 16 + lo) as byte] + rest)
      case _ => None
  }

  /** Inserts the four group separators into 32 hexadecimal digits. */
  function Dashed(h: string): (s: string)
    requires |h| == 32
    ensures |s| == 36
  {
    h[..8] + "-" + h[8..12] + "-" + h[12..16] + "-" + h[16..20] + "-" + h[20..]
  }

  /** Drops the characters at the four separator positions of a 36-character string. */
  function Undashed(s: string): (h: string)
    requires |s| == 36
    ensures |h| == 32
  {
    s[..8] + s[9..13] + s[14..18] + s[19..23] + s[24..]
  }

  predicate IsSeparatorIndex(i: int) {
    i == 8 || i == 13 || i == 18 || i == 23
  }

  /** LLUUID::asString. */
  function FormatUuid(u: Uuid): (s: string)
    ensures |s| == 36
  {
    Dashed(HexOf(u))
  }

  /**
   * LLUUID::set on a string, for the 8-4-4-4-12 form with digits in either
   * case; any other string gives None (the caller then uses the null id).
   */
  function ParseUuid(s: string): (r: Option<Uuid>)
  {
    if |s| == 36 && s[8] == '-' && s[13] == '-' && s[18] == '-' && s[23] == '-' then
      match ParseHex(Undashed(s))
      case Some(bs) => Some(bs)
      case None => None
    else None
  }

  lemma HexOfTail(bs: seq<byte>)
    requires bs != []
    ensures HexOf(bs)[2..] == HexOf(bs[1..])
  {
    var h, t := HexOf(bs), HexOf(bs[1..]);
    forall i | 0 <= i < |t|
      ensures h[2..][i] == t[i]
    {
      assert (i + 2) / 2 == i / 2 + 1 && (i + 2) % 2 == i % 2;
    }
  }

  lemma ParseHexStep(s: string, hi: int, lo: int, rest: seq<byte>)
    requires |s| >= 2 && HexValue(s[0]) == Some(hi) && HexValue(s[1]) == Some(lo)
    requires ParseHex(s[2..]) == Some(rest)
    ensures ParseHex(s) == Some([(hi * 16 + lo) as byte] + rest)
  {
  }

  lemma {:induction false} ParseHexOf(bs: seq<byte>)
    ensures ParseHex(HexOf(bs)) == Some(bs)
  {
    if bs != [] {
      var b := bs[0];
      var hi, lo := b as int / 16, b as int % 16;
      assert (hi * 16 + lo) as byte == b;
      var h := HexOf(bs);
      HexValueOfHexChar(hi);
      HexValueOfHexChar(lo);
      HexOfTail(bs);
      ParseHexOf(bs[1..]);
      ParseHexStep(h, hi, lo, bs[1..]);
      assert [b] + bs[1..] == bs;
    }
  }

  lemma UndashedDashed(h: string)
    requires |h| == 32
    ensures Undashed(Dashed(h)) == h
  {
    var s := Dashed(h);
    assert s[..8] == h[..8];
    assert s[9..13] == h[8..12];
    assert s[14..18] == h[12..16];
    assert s[19..23] == h[16..20];
    assert s[24..] == h[20..];
    assert h == h[..8] + h[8..12] + h[12..16] + h[16..20] + h[20..];
  }

  /** Every character of HexOf(bs) is a lower-case hexadecimal digit. */
  lemma HexOfDigits(bs: seq<byte>, i: int)
    requires 0 <= i < 2 * |bs|
    ensures HexOf(bs)[i] in HexDigits
  {
  }

  /** The shape of a formatted id: separators at 8, 13, 18 and 23, lower-case hex elsewhere. */
  lemma FormatUuidShape(u: Uuid, i: int)
    requires 0 <= i < 36
    ensures IsSeparatorIndex(i) ==> FormatUuid(u)[i] == '-'
    ensures !IsSeparatorIndex(i) ==> FormatUuid(u)[i] in HexDigits
  {
    var h := HexOf(u);
    if !IsSeparatorIndex(i) {
      var j := if i < 8 then i else if i < 13 then i - 1 else if i < 18 then i - 2
               else if i < 23 then i - 3 else i - 4;
      assert FormatUuid(u)[i] == h[j];
      HexOfDigits(u, j);
    }
  }

  /** Parsing a formatted id gives the id back. */
  lemma ParseFormat(u: Uuid)
    ensures ParseUuid(FormatUuid(u)) == Some(u)
  {
    var s := FormatUuid(u);
    FormatUuidShape(u, 8);
    FormatUuidShape(u, 13);
    FormatUuidShape(u, 18);
    FormatUuidShape(u, 23);
    UndashedDashed(HexOf(u));
    ParseHexOf(u);
  }

  /** Distinct ids have distinct string forms. */
  lemma FormatInjective(u: Uuid, v: Uuid)
    requires FormatUuid(u) == FormatUuid(v)
    ensures u == v
  {
    ParseFormat(u);
    ParseFormat(v);
  }
}
