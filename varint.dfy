// Unsigned LEB128 varints with the decoding rules of the unsigned-varint
// crate that the multiaddr codec calls (`encode::u32`, `encode::usize`,
// `decode::u32`, `decode::usize`): seven bits per byte, least significant
// group first, high bit set on every byte but the last; decoding rejects a
// truncated input, an encoding longer than the type allows and a
// non-minimal encoding (a last byte of zero after the first).
module Varint {
  import opened Wrappers
  import opened Bytes

  datatype DecodeError = Insufficient | Overflow | NotMinimal

  function Pow128(k: nat): (r: nat)
    ensures r >= 1
  {
    if k == 0 then 1 else 128 * Pow128(k - 1)
  }

  /// The value of the seven-bit group `g` at index `i`.
  function Weighted(g: nat, i: nat): nat
  {
    g * Pow128(i)
  }

  /// The encoding of `n`.
  function Encode(n: nat): (r: seq<byte>)
    ensures |r| >= 1 && r[|r| - 1] < 0x80
    ensures forall i :: 0 <= i < |r| - 1 ==> r[i] >= 0x80
    ensures |r| > 1 ==> r[|r| - 1] != 0
    decreases n
  {
    if n < 0x80 then [n]
    else [n % 0x80 + 0x80] + Encode(n / 0x80)
  }

  /// Decoding loop of the crate's `decode!` macro. `i` is the index of the
  /// current byte in the original input, `acc` the value of the groups read
  /// so far and `maxIndex` the index of the last byte the type allows (4 for
  /// u32, 9 for a 64-bit usize). The value is returned unbounded; the
  /// callers fold it into the type's width, as the shifts of the Rust code
  /// do.
  function DecodeFrom(buf: seq<byte>, i: nat, acc: nat, maxIndex: nat)
    : (r: Result<(nat, seq<byte>), DecodeError>)
    ensures r.Ok? ==> |r.value.1| < |buf|
    decreases |buf|
  {
    if buf == [] then Err(Insufficient)
    else
      var b := buf[0];
      var acc' := acc + Weighted(b % 0x80, i);
      if b < 0x80 then
        if b == 0 && i > 0 then Err(NotMinimal) else Ok((acc', buf[1..]))
      else if i == maxIndex then Err(Overflow)
      else DecodeFrom(buf[1..], i + 1, acc', maxIndex)
  }

  const U32_MODULUS: nat := 0x1_0000_0000
  const U64_MODULUS: nat := 0x1_0000_0000_0000_0000

  /// `decode::u32`: the value and the unread rest of the input.
  function DecodeU32(buf: seq<byte>): (r: Result<(u32, seq<byte>), DecodeError>)
    ensures r.Ok? ==> |r.value.1| < |buf|
  {
    var d := DecodeFrom(buf, 0, 0, 4);
    if d.Err? then Err(d.error) else Ok((d.value.0 % U32_MODULUS, d.value.1))
  }

  /// `decode::usize` on a 64-bit target.
  function DecodeUsize(buf: seq<byte>): (r: Result<(usize, seq<byte>), DecodeError>)
    ensures r.Ok? ==> |r.value.1| < |buf|
  {
    var d := DecodeFrom(buf, 0, 0, 9);
    if d.Err? then Err(d.error) else Ok((d.value.0 % U64_MODULUS, d.value.1))
  }

  /// What decoding leaves unread is a suffix of its input.
  lemma {:induction false} DecodeFromSuffix(buf: seq<byte>, i: nat, acc: nat, maxIndex: nat)
    ensures var r := DecodeFrom(buf, i, acc, maxIndex);
            r.Ok? ==> r.value.1 == buf[|buf| - |r.value.1|..]
    decreases |buf|
  {
    if buf != [] && buf[0] >= 0x80 && i != maxIndex {
      DecodeFromSuffix(buf[1..], i + 1, acc + Weighted(buf[0] % 0x80, i), maxIndex);
    }
  }

  /// Decoding reads only the bytes it consumes: what follows them can be
  /// replaced without changing the value.
  lemma {:induction false} DecodeFromFrame(c: seq<byte>, rest: seq<byte>, rest': seq<byte>, i: nat, acc: nat, maxIndex: nat, n: nat)
    requires DecodeFrom(c + rest, i, acc, maxIndex) == Ok((n, rest))
    ensures DecodeFrom(c + rest', i, acc, maxIndex) == Ok((n, rest'))
    decreases |c|
  {
    assert c != [];
    var b := c[0];
    assert (c + rest)[0] == b && (c + rest')[0] == b;
    assert (c + rest)[1..] == c[1..] + rest && (c + rest')[1..] == c[1..] + rest';
    if b >= 0x80 && i != maxIndex {
      DecodeFromFrame(c[1..], rest, rest', i + 1, acc + Weighted(b % 0x80, i), maxIndex, n);
    } else if b < 0x80 {
      assert |c[1..] + rest| == |rest|;
      assert c[1..] == [];
    }
  }

  /// What `decode::u32` and `decode::usize` leave unread is the end of
  /// their input.
  lemma DecodeSuffix(buf: seq<byte>)
    ensures DecodeU32(buf).Ok? ==> buf == buf[..|buf| - |DecodeU32(buf).value.1|] + DecodeU32(buf).value.1
    ensures DecodeUsize(buf).Ok? ==> buf == buf[..|buf| - |DecodeUsize(buf).value.1|] + DecodeUsize(buf).value.1
  {
    DecodeFromSuffix(buf, 0, 0, 4);
    DecodeFromSuffix(buf, 0, 0, 9);
  }

  lemma DecodeU32Frame(c: seq<byte>, rest: seq<byte>, rest': seq<byte>, n: u32)
    requires DecodeU32(c + rest) == Ok((n, rest))
    ensures DecodeU32(c + rest') == Ok((n, rest'))
  {
    var d := DecodeFrom(c + rest, 0, 0, 4);
    DecodeFromFrame(c, rest, rest', 0, 0, 4, d.value.0);
  }

  lemma DecodeUsizeFrame(c: seq<byte>, rest: seq<byte>, rest': seq<byte>, n: usize)
    requires DecodeUsize(c + rest) == Ok((n, rest))
    ensures DecodeUsize(c + rest') == Ok((n, rest'))
  {
    var d := DecodeFrom(c + rest, 0, 0, 9);
    DecodeFromFrame(c, rest, rest', 0, 0, 9, d.value.0);
  }

  lemma {:induction false} EncodeLength(n: nat, k: nat)
    requires n < Pow128(k + 1)
    ensures |Encode(n)| <= k + 1
    decreases n
  {
    if n >= 0x80 {
      assert k > 0;
      EncodeLength(n / 0x80, k - 1);
    }
  }

  lemma {:induction false} DecodeFromEncode(n: nat, rest: seq<byte>, i: nat, acc: nat, maxIndex: nat)
    requires i + |Encode(n)| <= maxIndex + 1
    requires i == 0 || n > 0
    ensures DecodeFrom(Encode(n) + rest, i, acc, maxIndex) == Ok((acc + Weighted(n, i), rest))
    decreases n, 1
  {
    if n < 0x80 {
      assert (Encode(n) + rest)[0] == n && (Encode(n) + rest)[1..] == rest;
      assert n % 0x80 == n;
    } else {
      DecodeFromEncodeHigh(n, rest, i, acc, maxIndex);
    }
  }

  lemma {:induction false} DecodeFromEncodeHigh(n: nat, rest: seq<byte>, i: nat, acc: nat, maxIndex: nat)
    requires n >= 0x80
    requires i + |Encode(n)| <= maxIndex + 1
    ensures DecodeFrom(Encode(n) + rest, i, acc, maxIndex) == Ok((acc + Weighted(n, i), rest))
    decreases n, 0
  {
    var lo, hi := EncodeHigh(n, rest);
    var acc' := acc + Weighted(lo, i);
    HighByteStep(lo + 0x80, Encode(hi) + rest, i, acc, maxIndex);
    DecodeFromEncode(hi, rest, i + 1, acc', maxIndex);
    GroupSplit(n, lo, hi, i, acc, acc');
  }

  /// The first byte of a multi-byte encoding carries the low seven bits.
  lemma EncodeHigh(n: nat, rest: seq<byte>) returns (lo: nat, hi: nat)
    requires n >= 0x80
    ensures lo < 0x80 && hi < n && n == lo + 0x80 * hi
    ensures Encode(n) + rest == [lo + 0x80] + (Encode(hi) + rest)
    ensures |Encode(n)| == 1 + |Encode(hi)|
  {
    lo, hi := n % 0x80, n / 0x80;
    assert Encode(n) == [lo + 0x80] + Encode(hi);
  }

  /// A byte with the continuation bit set, before the last index allowed,
  /// adds its seven bits and moves on.
  lemma HighByteStep(b: byte, t: seq<byte>, i: nat, acc: nat, maxIndex: nat)
    requires b >= 0x80 && i < maxIndex
    ensures DecodeFrom([b] + t, i, acc, maxIndex)
            == DecodeFrom(t, i + 1, acc + Weighted(b - 0x80, i), maxIndex)
  {
    assert ([b] + t)[0] == b && ([b] + t)[1..] == t;
    assert b % 0x80 == b - 0x80;
  }

  lemma GroupSplit(n: nat, lo: nat, hi: nat, i: nat, acc: nat, acc': nat)
    requires n == lo + 0x80 * hi && acc' == acc + Weighted(lo, i)
    ensures acc' + Weighted(hi, i + 1) == acc + Weighted(n, i)
  {
    var p := Pow128(i);
    assert Pow128(i + 1) == 0x80 * p;
    assert hi * (0x80 * p) == (0x80 * hi) * p;
    assert lo * p + (0x80 * hi) * p == (lo + 0x80 * hi) * p;
  }

  lemma Pow128Five()
    ensures Pow128(5) == 0x8_0000_0000
  {
    assert Pow128(2) == 0x4000;
  }

  lemma Pow128Ten()
    ensures Pow128(10) == 0x40_0000_0000_0000_0000
  {
    Pow128Five();
    assert Pow128(7) == 0x2_0000_0000_0000;
  }

  /// Decoding the encoding of a value from the start.
  lemma DecodeFromEncodeStart(n: nat, rest: seq<byte>, maxIndex: nat)
    requires |Encode(n)| <= maxIndex + 1
    ensures DecodeFrom(Encode(n) + rest, 0, 0, maxIndex) == Ok((n, rest))
  {
    DecodeFromEncode(n, rest, 0, 0, maxIndex);
    assert 0 + Weighted(n, 0) == n;
  }

  /// Round trip of `encode::u32` and `decode::u32`.
  lemma DecodeU32Encode(n: u32, rest: seq<byte>)
    ensures DecodeU32(Encode(n) + rest) == Ok((n, rest))
  {
    assert n < Pow128(5) by { Pow128Five(); }
    EncodeLength(n, 4);
    DecodeFromEncodeStart(n, rest, 4);
    ModSmall(n, U32_MODULUS);
  }

  /// Round trip of `encode::usize` and `decode::usize`.
  lemma DecodeUsizeEncode(n: usize, rest: seq<byte>)
    ensures DecodeUsize(Encode(n) + rest) == Ok((n, rest))
  {
    assert n < Pow128(10) by { Pow128Ten(); }
    EncodeLength(n, 9);
    DecodeFromEncodeStart(n, rest, 9);
    ModSmall(n, U64_MODULUS);
  }

  lemma ModSmall(n: nat, m: nat)
    requires n < m
    ensures n % m == n
  {
  }
}
