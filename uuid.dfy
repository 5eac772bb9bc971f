/**
 * The two UUID types of the API (the one of the SQL driver and the one of the
 * JSON layer) and the byte copies between them, plus the textual form both
 * print and parse: the hyphenated 8-4-4-4-12 hexadecimal form of RFC 4122,
 * section 3.
 */
module Uuid {
  import opened Wrappers

  /** An unsigned 8-bit value. */
  type Byte = x: int | 0 <= x < 256

  /** The sixteen bytes of a UUID. */
  type Bytes16 = b: seq<Byte> | |b| == 16 witness seq(16, _ => 0)

  datatype SqlxUuid = SqlxUuid(bytes: Bytes16)

  datatype SerdeUuid = SerdeUuid(bytes: Bytes16)

  /** Driver UUID to JSON UUID: a copy of the sixteen bytes, total. */
  function FromSqlxToSerde(u: SqlxUuid): (r: SerdeUuid)
    ensures r.bytes == u.bytes
  {
    SerdeUuid(u.bytes)
  }

  /** JSON UUID to driver UUID: a copy of the sixteen bytes, total. */
  function FromSerdeToSqlx(u: SerdeUuid): (r: SqlxUuid)
    ensures r.bytes == u.bytes
  {
    SqlxUuid(u.bytes)
  }

  /** Both conversions are inverse to each other. */
  lemma ConversionsRoundTrip(a: SqlxUuid, b: SerdeUuid)
    ensures FromSerdeToSqlx(FromSqlxToSerde(a)) == a
    ensures FromSqlxToSerde(FromSerdeToSqlx(b)) == b
  {
  }

  // ---------------------------------------------------------------------------
  // Text form

  function HexDigit(d: nat): (c: char)
    requires d < 16
  {
    if d < 10 then ('0' as int + d) as char else ('a' as int + d - 10) as char
  }

  /** The value of one hexadecimal digit, in either case. */
  function HexValue(c: char): (r: Option<nat>)
    ensures r.Some? ==> r.value < 16
  {
    if '0' <= c <= '9' then Some(c as int - '0' as int)
    else if 'a' <= c <= 'f' then Some(c as int - 'a' as int + 10)
    else if 'A' <= c <= 'F' then Some(c as int - 'A' as int + 10)
    else None
  }

  lemma HexValueOfDigit(d: nat)
    requires d < 16
    ensures HexValue(HexDigit(d)) == Some(d)
  {
  }

  /** Two lower-case digits per byte, high nibble first. */
  function HexBytes(bs: seq<Byte>): (s: string)
    ensures |s| == 2 * |bs|
  {
    if bs == [] then ""
    else
      var n := bs[0];
      [HexDigit(n / 16), HexDigit(n % 16)] + HexBytes(bs[1..])
  }

  /** Reads an even number of hexadecimal digits back into bytes. */
  function UnhexBytes(s: string): (r: Option<seq<Byte>>)
    ensures r.Some? ==> 2 * |r.value| == |s|
  {
    if s == [] then Some([])
    else if |s| == 1 then None
    else match (HexValue(s[0]), HexValue(s[1]), UnhexBytes(s[2..]))
      case (Some(hi), Some(lo), Some(rest)) => Some([hi * 16 + lo] + rest)
      case _ => None
  }

  lemma {:induction false} UnhexHexBytes(bs: seq<Byte>)
    ensures UnhexBytes(HexBytes(bs)) == Some(bs)
  {
    if bs != [] {
      var n := bs[0];
      var s := HexBytes(bs);
      assert s == [HexDigit(n / 16), HexDigit(n % 16)] + HexBytes(bs[1..]);
      HexValueOfDigit(n / 16);
      HexValueOfDigit(n % 16);
      assert s[2..] == HexBytes(bs[1..]);
      UnhexHexBytes(bs[1..]);
      assert n / 16 * 16 + n % 16 == bs[0];
      assert [bs[0]] + bs[1..] == bs;
    }
  }

  /** The hyphenated form, as printed by the uuid crate's `Display`. */
  function Format(b: Bytes16): (s: string)
    ensures |s| == 36
    ensures s[8] == '-' && s[13] == '-' && s[18] == '-' && s[23] == '-'
  {
    HexBytes(b[..4]) + "-" + HexBytes(b[4..6]) + "-" + HexBytes(b[6..8]) + "-"
      + HexBytes(b[8..10]) + "-" + HexBytes(b[10..])
  }

  /**
   * The hyphenated form read back: 36 characters, hyphens at 8, 13, 18 and 23,
   * hexadecimal digits of either case everywhere else.
   */
  function Parse(s: string): (r: Option<Bytes16>)
  {
    if |s| != 36 || s[8] != '-' || s[13] != '-' || s[18] != '-' || s[23] != '-' then None
    else match (UnhexBytes(s[..8]), UnhexBytes(s[9..13]), UnhexBytes(s[14..18]),
                UnhexBytes(s[19..23]), UnhexBytes(s[24..]))
      case (Some(g0), Some(g1), Some(g2), Some(g3), Some(g4)) => Some(g0 + g1 + g2 + g3 + g4)
      case _ => None
  }

  /** The five digit groups of the printed form. */
  lemma FormatGroups(b: Bytes16)
    ensures var s := Format(b);
            && s[..8] == HexBytes(b[..4])
            && s[9..13] == HexBytes(b[4..6])
            && s[14..18] == HexBytes(b[6..8])
            && s[19..23] == HexBytes(b[8..10])
            && s[24..] == HexBytes(b[10..])
  {
    var s := Format(b);
    assert s[..8] == HexBytes(b[..4]);
    assert s[9..13] == HexBytes(b[4..6]);
    assert s[14..18] == HexBytes(b[6..8]);
    assert s[19..23] == HexBytes(b[8..10]);
  }

  /** Every printed UUID parses back to itself. */
  lemma ParseFormat(b: Bytes16)
    ensures Parse(Format(b)) == Some(b)
  {
    FormatGroups(b);
    UnhexHexBytes(b[..4]);
    UnhexHexBytes(b[4..6]);
    UnhexHexBytes(b[6..8]);
    UnhexHexBytes(b[8..10]);
    UnhexHexBytes(b[10..]);
    assert b[..4] + b[4..6] + b[6..8] + b[8..10] + b[10..] == b;
  }

  /** Two UUIDs print the same only if they are equal. */
  lemma FormatInjective(a: Bytes16, b: Bytes16)
    ensures Format(a) == Format(b) ==> a == b
  {
    ParseFormat(a);
    ParseFormat(b);
  }
}
