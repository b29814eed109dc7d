// The percent-encoding of path text that the multiaddr `x-with-path`
// component uses (the percent_encoding crate): a byte of the encode set,
// or any non-ASCII byte, is written `%` and two upper-case hex digits;
// decoding turns `%` and two hex digits of either case back into the byte
// and keeps every other byte, a stray `%` included.
module PercentEncoding {
  import opened Wrappers
  import opened Bytes

  const PERCENT: byte := 0x25

  /// The path segment encode set: the controls, `%`, `/`, `` ` ``, `?`,
  /// `{`, `}`, space, `"`, `#`, `<`, `>` and `:`.
  predicate InPathSegmentSet(b: byte)
  {
    b < 0x20 || b == 0x7F
    || b == 0x25 || b == 0x2F || b == 0x60 || b == 0x3F || b == 0x7B || b == 0x7D
    || b == 0x20 || b == 0x22 || b == 0x23 || b == 0x3C || b == 0x3E || b == 0x3A
  }

  predicate Encoded(b: byte) { b >= 0x80 || InPathSegmentSet(b) }

  function HexDigit(n: nat): (r: byte)
    requires n < 16
    ensures r < 0x80
  {
    if n < 10 then 0x30 + n else 0x37 + n
  }

  function HexValue(b: byte): (r: Option<nat>)
    ensures r.Some? ==> r.value < 16
  {
    if 0x30 <= b <= 0x39 then Some(b - 0x30)
    else if 0x41 <= b <= 0x46 then Some(b - 0x37)
    else if 0x61 <= b <= 0x66 then Some(b - 0x57)
    else None
  }

  function EncodeByte(b: byte): (r: seq<byte>)
    ensures 0 < |r| && (r[0] == PERCENT <==> Encoded(b))
  {
    if Encoded(b) then [PERCENT, HexDigit(b / 16), HexDigit(b % 16)] else [b]
  }

  /// `percent_encode(s, PATH_SEGMENT_ENCODE_SET)` written out.
  function Encode(s: seq<byte>): (r: seq<byte>)
    ensures SLASH !in r
    ensures IsAscii(r)
  {
    if s == [] then [] else EncodeByte(s[0]) + Encode(s[1..])
  }

  /// `percent_decode(s)`.
  function Decode(s: seq<byte>): seq<byte>
    decreases |s|
  {
    if s == [] then []
    else if s[0] == PERCENT && |s| >= 3 && HexValue(s[1]).Some? && HexValue(s[2]).Some? then
      [HexValue(s[1]).value * 16 + HexValue(s[2]).value] + Decode(s[3..])
    else [s[0]] + Decode(s[1..])
  }

  /// Decoding undoes encoding.
  lemma {:induction false} DecodeEncode(s: seq<byte>)
    ensures Decode(Encode(s)) == s
  {
    if s != [] {
      var b := s[0];
      var e := Encode(s);
      assert e == EncodeByte(b) + Encode(s[1..]);
      DecodeEncode(s[1..]);
      if Encoded(b) {
        assert HexValue(HexDigit(b / 16)) == Some(b / 16);
        assert HexValue(HexDigit(b % 16)) == Some(b % 16);
        assert e[3..] == Encode(s[1..]);
      } else {
        assert e[1..] == Encode(s[1..]);
      }
      assert s == [b] + s[1..];
    }
  }
}
