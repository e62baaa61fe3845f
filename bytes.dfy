/** Bytes and the little-endian integer encodings every protocol revision
    uses, with the byte sums the checksums are built from. */
module Bytes {
  import opened Wrappers

  type byte = x: int | 0 <= x < 256

  const U8: int := 0x100
  const U16: int := 0x1_0000
  const U32: int := 0x1_0000_0000

  /** 256 to the power n: the number of values an n-byte field holds. */
  function Pow256(n: nat): (r: nat)
    ensures r >= 1
  {
    if n == 0 then 1 else 256 * Pow256(n - 1)
  }

  /** The n-byte little-endian encoding of v modulo 256^n. */
  function ToLe(v: nat, n: nat): (r: seq<byte>)
    ensures |r| == n
  {
    if n == 0 then [] else [v % 256] + ToLe(v / 256, n - 1)
  }

  /** The unsigned value of a little-endian byte string. */
  function FromLe(s: seq<byte>): nat
  {
    if |s| == 0 then 0 else s[0] + 256 * FromLe(s[1..])
  }

  lemma {:induction false} FromLeBound(s: seq<byte>)
    ensures FromLe(s) < Pow256(|s|)
  {
    if |s| > 0 {
      FromLeBound(s[1..]);
      assert FromLe(s) <= 255 + 256 * (Pow256(|s| - 1) - 1);
    }
  }

  /** Wider fields hold more values. */
  lemma {:induction false} Pow256Mono(a: nat, b: nat)
    requires a <= b
    ensures Pow256(a) <= Pow256(b)
  {
    if a < b {
      Pow256Mono(a, b - 1);
    }
  }

  /** Four bytes decoded generally are the u32 read at their start. */
  lemma FromLeLe32(s: seq<byte>)
    requires |s| == 4
    ensures FromLe(s) == ReadLe32(s, 0)
  {
    assert FromLe(s[3..]) == s[3] by { assert s[3..][1..] == []; }
    assert FromLe(s[2..]) == s[2] as int + 256 * s[3] as int by { assert s[2..][1..] == s[3..]; }
    assert FromLe(s[1..]) == s[1] as int + 256 * (s[2] as int + 256 * s[3] as int) by { assert s[1..][1..] == s[2..]; }
  }

  /** Decoding an encoding gives the value back when it fits in n bytes. */
  lemma {:induction false} FromToLe(v: nat, n: nat)
    requires v < Pow256(n)
    ensures FromLe(ToLe(v, n)) == v
  {
    if n > 0 {
      assert v / 256 < Pow256(n - 1);
      FromToLe(v / 256, n - 1);
      assert ToLe(v, n)[1..] == ToLe(v / 256, n - 1);
    }
  }

  /** Encoding a decoded string gives the same bytes back. */
  lemma {:induction false} ToFromLe(s: seq<byte>)
    ensures ToLe(FromLe(s), |s|) == s
  {
    if |s| > 0 {
      FromLeBound(s[1..]);
      ToFromLe(s[1..]);
      var v := FromLe(s);
      assert v % 256 == s[0] && v / 256 == FromLe(s[1..]);
    }
  }

  /** ToLe keeps only the value modulo 256^n. */
  lemma {:induction false} ToLeMod(v: nat, n: nat)
    ensures ToLe(v, n) == ToLe(v % Pow256(n), n)
  {
    if n > 0 {
      var p := Pow256(n - 1);
      assert Pow256(n) == 256 * p;
      var w := v % (256 * p);
      ModModLow(v, p);
      DivModNested(v, p);
      ToLeMod(v / 256, n - 1);
      assert ToLe(w, n) == [w % 256] + ToLe(w / 256, n - 1);
    }
  }

  /** (v mod 256p) mod 256 == v mod 256. */
  lemma ModModLow(v: nat, p: nat)
    requires p >= 1
    ensures (v % (256 * p)) % 256 == v % 256
  {
    var m := 256 * p;
    var w := v % m;
    var k := v / m;
    assert v == m * k + w;
    var pk := p * k;
    assert m * k == 256 * pk;
    ModUnique(v, 256, pk + w / 256, w % 256);
  }

  /** (v mod 256p) / 256 == (v / 256) mod p. */
  lemma DivModNested(v: nat, p: nat)
    requires p >= 1
    ensures (v % (256 * p)) / 256 == (v / 256) % p
  {
    var q := v / 256;
    var r := v % 256;
    assert v == 256 * q + r;
    var q2 := q / p;
    var r2 := q % p;
    assert q == p * q2 + r2;
    assert v == 256 * p * q2 + (256 * r2 + r);
    assert 0 <= 256 * r2 + r < 256 * p;
    assert v % (256 * p) == 256 * r2 + r by {
      ModUnique(v, 256 * p, q2, 256 * r2 + r);
    }
  }

  lemma ModUnique(v: int, m: int, q: int, r: int)
    requires m > 0 && 0 <= r < m && v == m * q + r
    ensures v % m == r && v / m == q
  {
    var q0, r0 := v / m, v % m;
    assert m * q0 + r0 == m * q + r;
    assert m * (q0 - q) == r - r0;
    MulSmall(m, q0 - q);
  }

  /** A multiple of m strictly between -m and m is zero. */
  lemma MulSmall(m: int, k: int)
    requires m > 0 && -m < m * k < m
    ensures k == 0
  {
  }

  // --- Fixed-width shorthands -------------------------------------------------

  /** A u16 written little-endian: v mod 65536, low byte first. */
  function Le16(v: nat): (r: seq<byte>)
    ensures |r| == 2
  {
    [v % 256, (v / 256) % 256]
  }

  /** A u32 written little-endian: v mod 2^32, low byte first. */
  function Le32(v: nat): (r: seq<byte>)
    ensures |r| == 4
  {
    [v % 256, (v / 256) % 256, (v / 256 / 256) % 256, (v / 256 / 256 / 256) % 256]
  }

  /** The u16 stored little-endian at offset i. */
  function ReadLe16(s: seq<byte>, i: nat): (r: nat)
    requires i + 2 <= |s|
    ensures r < U16
  {
    s[i] as int + 256 * s[i + 1] as int
  }

  /** The u32 stored little-endian at offset i. */
  function ReadLe32(s: seq<byte>, i: nat): (r: nat)
    requires i + 4 <= |s|
    ensures r < U32
  {
    s[i] as int + 256 * (s[i + 1] as int + 256 * (s[i + 2] as int + 256 * s[i + 3] as int))
  }

  /** Reading back a written u16 gives the value modulo 65536. */
  lemma ReadLe16Le16(v: nat, s: seq<byte>, i: nat)
    requires i + 2 <= |s| && s[i..i + 2] == Le16(v)
    ensures ReadLe16(s, i) == v % U16
  {
    assert s[i] == v % 256 && s[i + 1] == (v / 256) % 256;
  }

  /** A u16 below 2^16 written at offset i reads back unchanged. */
  lemma ReadLe16At(v: nat, s: seq<byte>, i: nat)
    requires v < U16 && i + 2 <= |s| && s[i..i + 2] == Le16(v)
    ensures ReadLe16(s, i) == v
  {
    ReadLe16Le16(v, s, i);
    assert v % U16 == v;
  }

  /** A u16 written on its own reads back unchanged. */
  lemma ReadLe16Of(v: nat)
    requires v < U16
    ensures ReadLe16(Le16(v), 0) == v
  {
    var s := Le16(v);
    assert s[0] == v % 256 && s[1] == v / 256;
  }

  /** Reading back a written u32 gives the value modulo 2^32. */
  lemma ReadLe32Le32(v: nat, s: seq<byte>, i: nat)
    requires i + 4 <= |s| && s[i..i + 4] == Le32(v)
    ensures ReadLe32(s, i) == v % U32
  {
    assert s[i] == v % 256 && s[i + 1] == (v / 256) % 256;
    assert s[i + 2] == (v / 256 / 256) % 256 && s[i + 3] == (v / 256 / 256 / 256) % 256;
    var a := v / 256;
    var b := a / 256;
    var c := b / 256;
    assert v == 256 * a + v % 256;
    assert a == 256 * b + a % 256;
    assert b == 256 * c + b % 256;
    assert v == 16777216 * c + 65536 * (b % 256) + 256 * (a % 256) + v % 256;
    assert c % 256 + 256 * (c / 256) == c;
    assert v == U32 * (c / 256) + (16777216 * (c % 256) + 65536 * (b % 256) + 256 * (a % 256) + v % 256);
    ModUnique(v, U32, c / 256, 16777216 * (c % 256) + 65536 * (b % 256) + 256 * (a % 256) + v % 256);
  }

  /** A u32 below 2^32 written at offset i reads back unchanged. */
  lemma ReadLe32At(v: nat, s: seq<byte>, i: nat)
    requires v < U32 && i + 4 <= |s| && s[i..i + 4] == Le32(v)
    ensures ReadLe32(s, i) == v
  {
    ReadLe32Le32(v, s, i);
    assert v % U32 == v;
  }

  /** Writing a read u16 reproduces the two bytes. */
  lemma Le16ReadLe16(s: seq<byte>, i: nat)
    requires i + 2 <= |s|
    ensures Le16(ReadLe16(s, i)) == s[i..i + 2]
  {
  }

  /** Writing a read u32 reproduces the four bytes. */
  lemma Le32ReadLe32(s: seq<byte>, i: nat)
    requires i + 4 <= |s|
    ensures Le32(ReadLe32(s, i)) == s[i..i + 4]
  {
    var v := ReadLe32(s, i);
    var t := s[i + 1] as int + 256 * (s[i + 2] as int + 256 * s[i + 3] as int);
    var u := s[i + 2] as int + 256 * s[i + 3] as int;
    assert v / 256 == t && v % 256 == s[i];
    assert t / 256 == u && t % 256 == s[i + 1];
    assert u / 256 == s[i + 3] && u % 256 == s[i + 2];
  }

  // --- int.to_bytes ---------------------------------------------------------------

  /** v.to_bytes(n, 'little'): OverflowError unless 0 <= v < 256^n. */
  function ToBytes(v: int, n: nat): (r: Result<seq<byte>, PyError>)
    ensures r.Ok? <==> 0 <= v < Pow256(n)
    ensures r.Err? ==> r.error == OverflowError
    ensures r.Ok? ==> |r.value| == n && FromLe(r.value) == v
  {
    if 0 <= v < Pow256(n) then
      FromToLe(v, n);
      Ok(ToLe(v, n))
    else Err(OverflowError)
  }

  /** to_bytes(4, 'little') of a value that fits is the u32 layout. */
  lemma ToBytesLe32(v: int)
    requires 0 <= v < U32
    ensures ToBytes(v, 4) == Ok(Le32(v))
  {
    assert Pow256(4) == U32;
    ToLeLe32(v);
  }

  /** to_bytes(2, 'little') of a value that fits is the u16 layout. */
  lemma ToBytesLe16(v: int)
    requires 0 <= v < U16
    ensures ToBytes(v, 2) == Ok(Le16(v))
  {
    assert Pow256(2) == U16;
    ToLeLe16(v);
  }

  /** The general encoding at width 4 is the u32 shorthand. */
  lemma ToLeLe32(v: nat)
    requires v < U32
    ensures ToLe(v, 4) == Le32(v)
  {
    assert ToLe(v / 256 / 256, 2) == [(v / 256 / 256) % 256] + ToLe(v / 256 / 256 / 256, 1);
  }

  /** The general encoding at width 2 is the u16 shorthand. */
  lemma ToLeLe16(v: nat)
    requires v < U16
    ensures ToLe(v, 2) == Le16(v)
  {
  }

  /** to_bytes(1, 'little') of a byte is that byte. */
  lemma ToBytesByte(v: int)
    requires 0 <= v < U8
    ensures ToBytes(v, 1) == Ok([v])
  {
    assert Pow256(1) == U8;
    assert ToLe(v, 1) == [v % 256] + ToLe(v / 256, 0) == [v];
  }

  /** Two's complement of a signed value in n bytes, as an unsigned residue. */
  function Unsigned(v: int, n: nat): (r: nat)
    ensures r < Pow256(n)
  {
    v % Pow256(n)
  }

  /** The signed reading of an n-byte unsigned value (n > 0). */
  function Signed(u: nat, n: nat): int
    requires n > 0
  {
    if u >= Pow256(n) / 2 then u - Pow256(n) else u
  }

  lemma {:induction false} SignedUnsigned(v: int, n: nat)
    requires n > 0 && -(Pow256(n) / 2) <= v < Pow256(n) / 2
    ensures Signed(Unsigned(v, n), n) == v
  {
    var p := Pow256(n);
    assert p == 256 * Pow256(n - 1);
    if v >= 0 {
      ModUnique(v, p, 0, v);
    } else {
      ModUnique(v, p, -1, v + p);
    }
  }

  // --- Bitwise or --------------------------------------------------------------

  /** x | y on one byte. Or-ing with a zero byte leaves the other byte as it is,
      so those cases need no bit arithmetic. */
  function OrByte(x: byte, y: byte): (r: byte)
    ensures y == 0 ==> r == x
    ensures x == 0 ==> r == y
  {
    if y == 0 then x
    else if x == 0 then y
    else ((x as bv8) | (y as bv8)) as int
  }

  // --- Byte sums --------------------------------------------------------------

  /** The sum of the bytes, accumulated from the front as the source's loops do. */
  function Sum(s: seq<byte>): nat
  {
    if |s| == 0 then 0 else Sum(s[..|s| - 1]) + s[|s| - 1]
  }

  lemma {:induction false} SumAppend(a: seq<byte>, b: seq<byte>)
    ensures Sum(a + b) == Sum(a) + Sum(b)
  {
    if |b| > 0 {
      assert (a + b)[..|a + b| - 1] == a + b[..|b| - 1];
      SumAppend(a, b[..|b| - 1]);
    } else {
      assert a + b == a;
    }
  }

  lemma {:induction false} SumBound(s: seq<byte>)
    ensures Sum(s) <= 255 * |s|
  {
    if |s| > 0 {
      SumBound(s[..|s| - 1]);
    }
  }

  /** The sum of a byte string whose bytes are all zero is zero. */
  lemma {:induction false} SumZeros(s: seq<byte>)
    requires forall i :: 0 <= i < |s| ==> s[i] == 0
    ensures Sum(s) == 0
  {
    if |s| > 0 {
      SumZeros(s[..|s| - 1]);
    }
  }

  /** n zero bytes. */
  function Zeros(n: nat): (r: seq<byte>)
    ensures |r| == n && forall i :: 0 <= i < n ==> r[i] == 0
  {
    if n == 0 then [] else Zeros(n - 1) + [0]
  }

  // --- Sequences -------------------------------------------------------------

  /** Concatenation regrouped. */
  lemma Associate<T>(a: seq<T>, b: seq<T>, c: seq<T>)
    ensures (a + b) + c == a + (b + c)
  {
  }

  /** b[i:j] as Python slices: bounds past the end are clipped, never an error. */
  function Slice(b: seq<byte>, i: nat, j: nat): (r: seq<byte>)
    ensures i <= j <= |b| ==> r == b[i..j]
    ensures |r| <= j - i || j < i
    ensures |b| <= i ==> r == []
  {
    var hi := if j <= |b| then j else |b|;
    var lo := if i <= hi then i else hi;
    b[lo..hi]
  }

  /** A frame cut back into its header, body and footer by Python slices. */
  lemma SliceParts(h: seq<byte>, body: seq<byte>, f: seq<byte>)
    ensures var m := h + body + f;
      && Slice(m, 0, |h|) == h
      && Slice(m, |h|, |h| + |body|) == body
      && Slice(m, |h| + |body|, |m|) == f
  {
    var m := h + body + f;
    assert m[0..|h|] == h;
    assert m[|h|..|h| + |body|] == body;
    assert m[|h| + |body|..|m|] == f;
  }

  // --- Writing into a typed array --------------------------------------------

  /** s with src written over it from offset on. */
  function Overwritten(s: seq<byte>, src: seq<byte>, offset: nat): (r: seq<byte>)
    requires offset + |src| <= |s|
    ensures |r| == |s|
  {
    s[..offset] + src + s[offset + |src|..]
  }

  /** TypedArray.prototype.set, and the DataView setters once their value is
      encoded: src replaces the bytes of dst from offset on, the rest of dst is
      untouched. */
  method SetAt(dst: array<byte>, src: seq<byte>, offset: nat)
    requires offset + |src| <= dst.Length
    modifies dst
    ensures dst[..] == Overwritten(old(dst[..]), src, offset)
  {
    var i := 0;
    while i < |src|
      invariant 0 <= i <= |src|
      invariant forall k :: 0 <= k < dst.Length ==>
        dst[k] == (if offset <= k < offset + i then src[k - offset] else old(dst[k]))
    {
      dst[offset + i] := src[i];
      i := i + 1;
    }
  }
}
