// Machine integers, big-endian byte order, UTF-8 well-formedness and the
// decimal text form of unsigned integers, as the Rust standard library
// defines them. Strings of the source (`&str`, `String`) are modelled as
// their UTF-8 bytes.
module Bytes {
  import opened Wrappers

  type byte = x: int | 0 <= x < 0x100
  type u16 = x: int | 0 <= x < 0x1_0000
  type u32 = x: int | 0 <= x < 0x1_0000_0000
  type u64 = x: int | 0 <= x < 0x1_0000_0000_0000_0000
  /// `usize` on the 64-bit targets the source is built for.
  type usize = u64

  const SLASH: byte := 0x2F
  const PLUS: byte := 0x2B

  // ---------------------------------------------------------------------
  // Big-endian unsigned integers of a fixed byte width
  // (`u32::from_be_bytes`, `put_u32`, byteorder's `BigEndian`).

  function Pow256(k: nat): (r: nat)
    ensures r >= 1
  {
    if k == 0 then 1 else 256 * Pow256(k - 1)
  }

  /// The value of a big-endian byte string.
  function FromBE(s: seq<byte>): (r: nat)
    ensures r < Pow256(|s|)
  {
    if s == [] then 0
    else
      var hi := FromBE(s[..|s| - 1]);
      assert hi <= Pow256(|s| - 1) - 1;
      assert hi * 256 <= Pow256(|s| - 1) * 256 - 256;
      hi * 256 + s[|s| - 1]
  }

  /// The big-endian encoding of `n` in exactly `width` bytes.
  function ToBE(n: nat, width: nat): (r: seq<byte>)
    requires n < Pow256(width)
    ensures |r| == width && FromBE(r) == n
  {
    if width == 0 then []
    else
      assert n / 256 < Pow256(width - 1);
      var r := ToBE(n / 256, width - 1) + [n % 256];
      assert r[..|r| - 1] == ToBE(n / 256, width - 1);
      r
  }

  /// Big-endian encodings are unique: every byte string is the encoding of
  /// its own value.
  lemma {:induction false} ToBEOfFromBE(s: seq<byte>)
    ensures ToBE(FromBE(s), |s|) == s
  {
    if s != [] {
      var init := s[..|s| - 1];
      ToBEOfFromBE(init);
      var n := FromBE(s);
      assert n == FromBE(init) * 256 + s[|s| - 1];
      assert n / 256 == FromBE(init) && n % 256 == s[|s| - 1];
      assert s == init + [s[|s| - 1]];
    }
  }

  lemma {:induction false} ToBEInjective(m: nat, n: nat, width: nat)
    requires m < Pow256(width) && n < Pow256(width)
    requires ToBE(m, width) == ToBE(n, width)
    ensures m == n
  {
    assert FromBE(ToBE(m, width)) == m;
  }

  lemma Pow256Values()
    ensures Pow256(2) == 0x1_0000 && Pow256(4) == 0x1_0000_0000
    ensures Pow256(8) == 0x1_0000_0000_0000_0000
  {
    assert Pow256(4) == Pow256(2) * Pow256(2) by {
      assert Pow256(4) == 256 * 256 * Pow256(2);
    }
  }

  function U16ToBE(n: u16): (r: seq<byte>)
    ensures |r| == 2 && FromBE(r) == n
  {
    Pow256Values();
    ToBE(n, 2)
  }

  function U32ToBE(n: u32): (r: seq<byte>)
    ensures |r| == 4 && FromBE(r) == n
  {
    Pow256Values();
    ToBE(n, 4)
  }

  function U64ToBE(n: u64): (r: seq<byte>)
    ensures |r| == 8 && FromBE(r) == n
  {
    Pow256Values();
    ToBE(n, 8)
  }

  // ---------------------------------------------------------------------
  // UTF-8 well-formedness as `std::str::from_utf8` checks it
  // (RFC 3629: shortest forms only, no surrogates, nothing above U+10FFFF).

  predicate Cont(b: byte) { 0x80 <= b <= 0xBF }

  /// The number of bytes of the character that lead byte `b` starts.
  function CharLen(b: byte): (n: nat)
    ensures 1 <= n <= 4
    ensures n == 1 <==> b < 0x80
  {
    if b < 0x80 then 1 else if b <= 0xDF then 2 else if b <= 0xEF then 3 else 4
  }

  /// The first character of `s` is complete and well formed.
  predicate FirstCharOk(s: seq<byte>)
    requires s != []
  {
    |s| >= CharLen(s[0]) &&
    if s[0] < 0x80 then true
    else if 0xC2 <= s[0] <= 0xDF then Cont(s[1])
    else if s[0] == 0xE0 then 0xA0 <= s[1] <= 0xBF && Cont(s[2])
    else if 0xE1 <= s[0] <= 0xEC || 0xEE <= s[0] <= 0xEF then Cont(s[1]) && Cont(s[2])
    else if s[0] == 0xED then 0x80 <= s[1] <= 0x9F && Cont(s[2])
    else if s[0] == 0xF0 then 0x90 <= s[1] <= 0xBF && Cont(s[2]) && Cont(s[3])
    else if 0xF1 <= s[0] <= 0xF3 then Cont(s[1]) && Cont(s[2]) && Cont(s[3])
    else if s[0] == 0xF4 then 0x80 <= s[1] <= 0x8F && Cont(s[2]) && Cont(s[3])
    else false
  }

  predicate ValidUtf8(s: seq<byte>)
    decreases |s|
  {
    s == [] || (FirstCharOk(s) && ValidUtf8(s[CharLen(s[0])..]))
  }

  /// Two strings written one after the other make a string.
  lemma {:induction false} Utf8Concat(a: seq<byte>, b: seq<byte>)
    requires ValidUtf8(a) && ValidUtf8(b)
    ensures ValidUtf8(a + b)
    decreases |a|
  {
    if a != [] {
      var k := CharLen(a[0]);
      assert FirstCharOk(a) && ValidUtf8(a[k..]);
      assert (a + b)[0] == a[0];
      assert (a + b)[..k] == a[..k];
      assert FirstCharOk(a + b);
      assert (a + b)[k..] == a[k..] + b;
      Utf8Concat(a[k..], b);
    } else {
      assert a + b == b;
    }
  }

  /// An ASCII byte after the first byte of a string is past its first
  /// character.
  lemma AsciiAfterFirstChar(s: seq<byte>, j: nat)
    requires s != [] && FirstCharOk(s) && 0 < j < |s| && s[j] < 0x80
    ensures CharLen(s[0]) <= j
  {
  }

  /// A sequence that starts with the same complete first character has it
  /// complete too.
  lemma FirstCharOfPrefix(s: seq<byte>, a: seq<byte>)
    requires s != [] && FirstCharOk(s) && CharLen(s[0]) <= |a|
    requires forall i :: 0 <= i < CharLen(s[0]) ==> a[i] == s[i]
    ensures FirstCharOk(a)
  {
    assert a[0] == s[0];
  }

  /// Cutting a string at an ASCII character leaves a string on either side.
  lemma {:induction false} Utf8SplitAscii(a: seq<byte>, c: byte, b: seq<byte>)
    requires c < 0x80 && ValidUtf8(a + [c] + b)
    ensures ValidUtf8(a) && ValidUtf8(b)
    decreases |a|
  {
    var s := a + [c] + b;
    if a == [] {
      assert s[0] == c && s[1..] == b;
    } else {
      var k := CharLen(a[0]);
      assert s[0] == a[0] && s[|a|] == c;
      AsciiAfterFirstChar(s, |a|);
      assert forall i :: 0 <= i < k ==> a[i] == s[i];
      FirstCharOfPrefix(s, a);
      assert s[k..] == a[k..] + [c] + b;
      Utf8SplitAscii(a[k..], c, b);
    }
  }

  /// A Rust string: bytes that are well-formed UTF-8.
  type Utf8 = s: seq<byte> | ValidUtf8(s)

  predicate IsAscii(s: seq<byte>) { forall i :: 0 <= i < |s| ==> s[i] < 0x80 }

  lemma {:induction false} AsciiIsUtf8(s: seq<byte>)
    requires IsAscii(s)
    ensures ValidUtf8(s)
  {
    if s != [] {
      assert IsAscii(s[1..]) by {
        forall i | 0 <= i < |s[1..]| ensures s[1..][i] < 0x80 { assert s[1..][i] == s[i + 1]; }
      }
      AsciiIsUtf8(s[1..]);
    }
  }

  // ---------------------------------------------------------------------
  // Decimal text of unsigned integers: `Display` for u16/u64 and
  // `str::parse::<u16>()` / `str::parse::<u64>()`.

  predicate IsDigit(b: byte) { 0x30 <= b <= 0x39 }

  predicate AllDigits(s: seq<byte>) { forall i :: 0 <= i < |s| ==> IsDigit(s[i]) }

  function DigitsValue(s: seq<byte>): nat
    requires AllDigits(s)
  {
    if s == [] then 0 else DigitsValue(s[..|s| - 1]) * 10 + (s[|s| - 1] - 0x30)
  }

  /// The shortest decimal text of `n`, as `Display` writes it.
  function Decimal(n: nat): (r: seq<byte>)
    ensures |r| > 0 && AllDigits(r) && DigitsValue(r) == n
    ensures r[0] != 0x30 || n == 0
  {
    if n < 10 then [0x30 + n]
    else
      var r := Decimal(n / 10) + [0x30 + n % 10];
      assert r[..|r| - 1] == Decimal(n / 10);
      r
  }

  /// `FromStr` for an unsigned integer type whose values are below `bound`:
  /// an optional leading `+`, then at least one ASCII digit and nothing else,
  /// and a value that fits (leading zeros are accepted).
  function ParseUnsigned(s: seq<byte>, bound: nat): (r: Option<nat>)
    ensures r.Some? <==> (var d := if |s| > 0 && s[0] == PLUS then s[1..] else s;
                          d != [] && AllDigits(d) && DigitsValue(d) < bound)
    ensures r.Some? ==> r.value < bound
  {
    var digits := if |s| > 0 && s[0] == PLUS then s[1..] else s;
    if digits != [] && AllDigits(digits) && DigitsValue(digits) < bound
    then Some(DigitsValue(digits))
    else None
  }

  lemma ParseDecimal(n: nat, bound: nat)
    requires n < bound
    ensures ParseUnsigned(Decimal(n), bound) == Some(n)
  {
  }

  lemma DecimalHasNoSlash(n: nat)
    ensures SLASH !in Decimal(n)
  {
  }
}
