/** UTF-8 as Python's str.encode('utf-8') writes it and bytes.decode('utf-8')
    reads it (section 3 of RFC 3629): a character (a Unicode scalar value) takes
    one to four bytes, and the strict decoder rejects a stray continuation byte,
    a sequence cut short, an overlong form, an encoded surrogate and anything
    above U+10FFFF. */
module Utf8 {
  import opened Wrappers
  import opened Bytes

  /** The bytes of one character: 0xxxxxxx, 110xxxxx 10xxxxxx,
      1110xxxx 10xxxxxx 10xxxxxx or 11110xxx 10xxxxxx 10xxxxxx 10xxxxxx. */
  function EncodeChar(c: char): (r: seq<byte>)
    ensures 1 <= |r| <= 4
    ensures (|r| == 1) == (c as int < 0x80)
    ensures r[0] == 0 <==> c == '\0'
  {
    var v := c as int;
    if v < 0x80 then [v]
    else if v < 0x800 then [0xC0 + v / 64, 0x80 + v % 64]
    else if v < 0x1_0000 then [0xE0 + v / 4096, 0x80 + v / 64 % 64, 0x80 + v % 64]
    else [0xF0 + v / 0x4_0000, 0x80 + v / 4096 % 64, 0x80 + v / 64 % 64, 0x80 + v % 64]
  }

  /** str.encode('utf-8'): the characters' bytes one after another. */
  function Encode(s: string): (r: seq<byte>)
    ensures |r| >= |s|
  {
    if |s| == 0 then [] else EncodeChar(s[0]) + Encode(s[1..])
  }

  predicate IsContinuation(b: byte)
  {
    0x80 <= b < 0xC0
  }

  /** The length of the sequence a leading byte starts, or 0 for a byte that
      starts none (a continuation byte, 0xC0, 0xC1 or 0xF5 and above). */
  function SequenceLength(b0: byte): (n: nat)
    ensures n <= 4
  {
    if b0 < 0x80 then 1
    else if 0xC2 <= b0 < 0xE0 then 2
    else if 0xE0 <= b0 < 0xF0 then 3
    else if 0xF0 <= b0 < 0xF5 then 4
    else 0
  }

  /** Whether b1 may follow the leading byte b0: any continuation byte, except
      that 0xE0 and 0xF0 exclude overlong forms, 0xED the surrogates and 0xF4
      everything above U+10FFFF. */
  predicate SecondByteFits(b0: byte, b1: byte)
  {
    if b0 == 0xE0 then 0xA0 <= b1 < 0xC0
    else if b0 == 0xED then 0x80 <= b1 < 0xA0
    else if b0 == 0xF0 then 0x90 <= b1 < 0xC0
    else if b0 == 0xF4 then 0x80 <= b1 < 0x90
    else IsContinuation(b1)
  }

  /** The character the sequence at the start of b encodes, and its length;
      None where the decoder raises. */
  function DecodeFirst(b: seq<byte>): (r: Option<(char, nat)>)
    requires |b| >= 1
    ensures r.Some? ==> 1 <= r.value.1 <= |b| && r.value.1 == SequenceLength(b[0])
  {
    var n := SequenceLength(b[0]);
    if n == 0 || |b| < n then None
    else if n == 1 then Some((b[0] as char, 1))
    else if !SecondByteFits(b[0], b[1]) then None
    else if n == 2 then Some((Scalar2(b[0], b[1]), 2))
    else if !IsContinuation(b[2]) then None
    else if n == 3 then Some((Scalar3(b[0], b[1], b[2]), 3))
    else if !IsContinuation(b[3]) then None
    else Some((Scalar4(b[0], b[1], b[2], b[3]), 4))
  }

  function Scalar2(b0: byte, b1: byte): (c: char)
    requires 0xC2 <= b0 < 0xE0 && IsContinuation(b1)
    ensures 0x80 <= c as int < 0x800
  {
    ((b0 - 0xC0) * 64 + (b1 - 0x80)) as char
  }

  function Scalar3(b0: byte, b1: byte, b2: byte): (c: char)
    requires 0xE0 <= b0 < 0xF0 && SecondByteFits(b0, b1) && IsContinuation(b2)
    ensures 0x800 <= c as int < 0x1_0000
  {
    ((b0 - 0xE0) * 4096 + (b1 - 0x80) * 64 + (b2 - 0x80)) as char
  }

  function Scalar4(b0: byte, b1: byte, b2: byte, b3: byte): (c: char)
    requires 0xF0 <= b0 < 0xF5 && SecondByteFits(b0, b1) && IsContinuation(b2) && IsContinuation(b3)
    ensures 0x1_0000 <= c as int
  {
    ((b0 - 0xF0) * 0x4_0000 + (b1 - 0x80) * 4096 + (b2 - 0x80) * 64 + (b3 - 0x80)) as char
  }

  /** bytes.decode('utf-8'): the characters of the sequences one after another;
      None where it raises UnicodeDecodeError. */
  function Decode(b: seq<byte>): (r: Option<string>)
    decreases |b|
  {
    if |b| == 0 then Some([])
    else
      match DecodeFirst(b)
      case None => None
      case Some((c, n)) =>
        match Decode(b[n..])
        case None => None
        case Some(s) => Some([c] + s)
  }

  /** The bytes of a character, whatever follows them, decode back to it. */
  lemma DecodeFirstEncodeChar(c: char, rest: seq<byte>)
    ensures DecodeFirst(EncodeChar(c) + rest) == Some((c, |EncodeChar(c)|))
  {
    var v := c as int;
    var b := EncodeChar(c) + rest;
    if v < 0x80 {
    } else if v < 0x800 {
      assert b[0] == 0xC0 + v / 64 && b[1] == 0x80 + v % 64;
    } else if v < 0x1_0000 {
      assert b[0] == 0xE0 + v / 4096 && b[1] == 0x80 + v / 64 % 64 && b[2] == 0x80 + v % 64;
      ThreeByteValue(v);
    } else {
      assert b[0] == 0xF0 + v / 0x4_0000 && b[1] == 0x80 + v / 4096 % 64;
      assert b[2] == 0x80 + v / 64 % 64 && b[3] == 0x80 + v % 64;
      FourByteValue(v);
    }
  }

  /** The digits of a three-byte scalar put back together, and its second byte
      within the range its first byte allows. */
  lemma ThreeByteValue(v: int)
    requires 0x800 <= v < 0x1_0000 && !(0xD800 <= v < 0xE000)
    ensures (v / 4096) * 4096 + (v / 64 % 64) * 64 + v % 64 == v
    ensures SecondByteFits(0xE0 + v / 4096, 0x80 + v / 64 % 64)
  {
  }

  /** The same for a four-byte scalar. */
  lemma FourByteValue(v: int)
    requires 0x1_0000 <= v < 0x11_0000
    ensures (v / 0x4_0000) * 0x4_0000 + (v / 4096 % 64) * 4096 + (v / 64 % 64) * 64 + v % 64 == v
    ensures SecondByteFits(0xF0 + v / 0x4_0000, 0x80 + v / 4096 % 64)
  {
  }

  /** A decoded text with s in front of it; no text where decoding raised. */
  function Prepend(s: string, o: Option<string>): Option<string>
  {
    match o
    case None => None
    case Some(t) => Some(s + t)
  }

  lemma PrependCons(c: char, u: string, o: Option<string>)
    ensures Prepend([c], Prepend(u, o)) == Prepend([c] + u, o)
  {
    if o.Some? {
      assert [c] + (u + o.value) == ([c] + u) + o.value;
    }
  }

  /** Decoding the bytes of one character followed by more bytes. */
  lemma DecodeStep(c: char, rest: seq<byte>)
    ensures Decode(EncodeChar(c) + rest) == Prepend([c], Decode(rest))
  {
    var e := EncodeChar(c);
    DecodeFirstEncodeChar(c, rest);
    assert (e + rest)[|e|..] == rest;
  }

  /** Decoding the bytes of a text followed by more bytes reads the text and then
      those bytes. */
  lemma {:induction false} DecodeEncodeAppend(s: string, rest: seq<byte>)
    ensures Decode(Encode(s) + rest) == Prepend(s, Decode(rest))
    decreases |s|
  {
    if |s| == 0 {
      assert Encode(s) + rest == rest;
      match Decode(rest) {
        case None =>
        case Some(t) => assert s + t == t;
      }
    } else {
      var x := Encode(s[1..]) + rest;
      assert Encode(s) + rest == EncodeChar(s[0]) + x;
      DecodeStep(s[0], x);
      DecodeEncodeAppend(s[1..], rest);
      PrependCons(s[0], s[1..], Decode(rest));
      assert [s[0]] + s[1..] == s;
    }
  }

  /** Round trip: decoding what encode wrote gives the text back. */
  lemma DecodeEncode(s: string)
    ensures Decode(Encode(s)) == Some(s)
  {
    DecodeEncodeAppend(s, []);
    assert Encode(s) + [] == Encode(s);
    assert s + [] == s;
  }

  /** A text followed by the first bytes of a multi-byte character, cut before its
      end, does not decode: the sequence is cut short. */
  lemma CutCharacterRaises(s: string, c: char, k: nat)
    requires 1 <= k < |EncodeChar(c)|
    ensures Decode(Encode(s) + EncodeChar(c)[..k]) == None
  {
    var part := EncodeChar(c)[..k];
    DecodeEncodeAppend(s, part);
    assert SequenceLength(part[0]) == |EncodeChar(c)| by {
      DecodeFirstEncodeChar(c, []);
      assert (EncodeChar(c) + [])[0] == part[0];
    }
  }

  /** Encoding a concatenation is concatenating the encodings. */
  lemma {:induction false} EncodeAppend(s: string, t: string)
    ensures Encode(s + t) == Encode(s) + Encode(t)
    decreases |s|
  {
    if |s| > 0 {
      assert (s + t)[1..] == s[1..] + t;
      EncodeAppend(s[1..], t);
    } else {
      assert s + t == t;
    }
  }

  /** n NUL characters. */
  function Nuls(n: nat): (r: string)
    ensures |r| == n && forall i :: 0 <= i < n ==> r[i] == '\0'
  {
    if n == 0 then [] else Nuls(n - 1) + ['\0']
  }

  /** n NUL characters encode as n zero bytes, so zero bytes decode as NULs. */
  lemma {:induction false} EncodeNuls(n: nat)
    ensures Encode(Nuls(n)) == Zeros(n)
    ensures Decode(Zeros(n)) == Some(Nuls(n))
  {
    if n > 0 {
      EncodeNuls(n - 1);
      EncodeAppend(Nuls(n - 1), ['\0']);
      assert Encode(['\0']) == [0] + Encode([]);
    }
    DecodeEncode(Nuls(n));
  }

  /** Encoding a character in front of a text. */
  lemma EncodeCons(c: char, q: string)
    ensures Encode([c] + q) == EncodeChar(c) + Encode(q)
  {
    assert ([c] + q)[1..] == q;
  }

  /** k copies of c. */
  function Repeat(c: char, k: nat): (r: string)
    ensures |r| == k
  {
    if k == 0 then [] else Repeat(c, k - 1) + [c]
  }

  /** k copies of a character take k times its bytes. */
  lemma {:induction false} EncodeRepeat(c: char, k: nat)
    ensures |Encode(Repeat(c, k))| == k * |EncodeChar(c)|
  {
    if k > 0 {
      EncodeRepeat(c, k - 1);
      EncodeAppend(Repeat(c, k - 1), [c]);
      assert Encode([c]) == EncodeChar(c) + Encode([]);
    }
  }

  /** The longest prefix of s whose bytes fit in n bytes. */
  function FittingPrefix(s: string, n: nat): (p: string)
    ensures |p| <= |s| && p == s[..|p|]
    ensures |Encode(p)| <= n
    ensures |p| < |s| ==> |Encode(p)| + |EncodeChar(s[|p|])| > n
  {
    if |s| == 0 || |EncodeChar(s[0])| > n then []
    else
      var q := FittingPrefix(s[1..], n - |EncodeChar(s[0])|);
      EncodeCons(s[0], q);
      [s[0]] + q
  }

  /** The encoding of a text is that of a prefix followed by that of the rest. */
  lemma EncodeSplit(s: string, i: nat)
    requires i <= |s|
    ensures Encode(s) == Encode(s[..i]) + Encode(s[i..])
  {
    assert s == s[..i] + s[i..];
    EncodeAppend(s[..i], s[i..]);
  }

  /** The first n bytes of a text's encoding, the cut '<32s' makes: when the
      encoding is longer, they decode to the longest prefix that fits if the cut
      falls between two characters, and raise if it falls inside one. */
  lemma DecodeCut(s: string, n: nat)
    requires |Encode(s)| > n
    ensures var p := FittingPrefix(s, n);
      Decode(Encode(s)[..n]) == if |Encode(p)| == n then Some(p) else None
  {
    var p := FittingPrefix(s, n);
    var rest := s[|p|..];
    EncodeSplit(s, |p|);
    assert |rest| > 0;
    var c := rest[0];
    assert rest == [c] + rest[1..];
    EncodeCons(c, rest[1..]);
    var k := n - |Encode(p)|;
    CutInside(Encode(p), EncodeChar(c), Encode(rest[1..]), n);
    if k == 0 {
      assert EncodeChar(c)[..k] == [];
      assert Encode(p) + EncodeChar(c)[..k] == Encode(p);
      DecodeEncode(p);
    } else {
      CutCharacterRaises(p, c, k);
    }
  }

  /** Cutting a + (b + t) at a point inside b keeps a and the front of b. */
  lemma CutInside(a: seq<byte>, b: seq<byte>, t: seq<byte>, n: nat)
    requires |a| <= n < |a| + |b|
    ensures (a + (b + t))[..n] == a + b[..n - |a|]
  {
  }

  /** The NUL character is the only one whose bytes hold a zero: it is the one
      byte 0, and every other character's bytes are all non-zero. */
  lemma EncodeCharNul(c: char)
    ensures c == '\0' ==> EncodeChar(c) == [0]
    ensures c != '\0' ==> forall i :: 0 <= i < |EncodeChar(c)| ==> EncodeChar(c)[i] != 0
  {
  }
}
