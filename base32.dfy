/**
 * The "base32" encoding of section 6 of RFC 4648 with its standard alphabet
 * and '=' padding, as Go's `base32.StdEncoding.EncodeToString` produces it.
 * Every 5 input bytes (40 bits) become 8 symbols of 5 bits each, most
 * significant bits first; a final group of 1 to 4 bytes is completed with
 * zero bits and the symbols that carry no input bits are replaced by '='.
 */
module Base32 {
  import opened Bytes

  /** The standard alphabet of section 6 of RFC 4648. */
  const Alphabet: string := "ABCDEFGHIJKLMNOPQRSTUVWXYZ234567"
  const Padding: char := '='

  /** A 5-bit value, the index of a symbol in the alphabet. */
  type Quintet = x: int | 0 <= x < 32

  predicate IsSymbol(c: char) {
    'A' <= c <= 'Z' || '2' <= c <= '7'
  }

  /** The symbol that encodes `v`. */
  function Symbol(v: Quintet): (c: char)
    ensures IsSymbol(c) && c != Padding
  {
    if v < 26 then ('A' as int + v) as char else ('2' as int + v - 26) as char
  }

  /** The value a symbol encodes; the padding character (and anything else) reads as 0. */
  function Value(c: char): (v: Quintet)
    ensures IsSymbol(c) ==> Symbol(v) == c
  {
    if 'A' <= c <= 'Z' then c as int - 'A' as int
    else if '2' <= c <= '7' then c as int - '2' as int + 26
    else 0
  }

  lemma SymbolIsStandard(v: Quintet)
    ensures Symbol(v) == Alphabet[v]
  {
  }

  lemma ValueOfSymbol(v: Quintet)
    ensures Value(Symbol(v)) == v
  {
  }

  /** The 8 quintets of the 40 bits b0 b1 b2 b3 b4, most significant first. */
  function Split(b0: Byte, b1: Byte, b2: Byte, b3: Byte, b4: Byte): (q: seq<Quintet>) {
    [ b0 / 8,
      (b0 % 8) * 4 + b1 / 64,
      (b1 / 2) % 32,
      (b1 % 2) * 16 + b2 / 16,
      (b2 % 16) * 2 + b3 / 128,
      (b3 / 4) % 32,
      (b3 % 4) * 8 + b4 / 32,
      b4 % 32 ]
  }

  /** The 5 bytes whose 40 bits are the 8 quintets of `q`. */
  function Join(q: seq<Quintet>): (bytes: seq<Byte>)
    requires |q| == 8
  {
    var q0: int, q1: int, q2: int, q3: int := q[0], q[1], q[2], q[3];
    var q4: int, q5: int, q6: int, q7: int := q[4], q[5], q[6], q[7];
    [ q0 * 8 + q1 / 4,
      (q1 % 4) * 64 + q2 * 2 + q3 / 16,
      (q3 % 16) * 16 + q4 / 2,
      (q4 % 2) * 128 + q5 * 4 + q6 / 8,
      (q6 % 8) * 32 + q7 ]
  }

  // Each byte of Join(Split(..)) is the byte it came from; one lemma per byte
  // keeps the arithmetic small.

  lemma JoinSplit0(b0: Byte, b1: Byte)
    ensures var q0, q1 := b0 / 8, (b0 % 8) * 4 + b1 / 64;
            q0 * 8 + q1 / 4 == b0 && q1 % 4 == b1 / 64
  {
    var x := b1 / 64;
    assert 0 <= x < 4;
    assert ((b0 % 8) * 4 + x) / 4 == b0 % 8;
  }

  lemma JoinSplit1(b1: Byte, b2: Byte)
    ensures var q2, q3 := (b1 / 2) % 32, (b1 % 2) * 16 + b2 / 16;
            (b1 / 64) * 64 + q2 * 2 + q3 / 16 == b1 && q3 % 16 == b2 / 16
  {
    var x := b2 / 16;
    assert 0 <= x < 16;
    assert ((b1 % 2) * 16 + x) / 16 == b1 % 2;
    var h := b1 / 2;
    assert h == (h / 32) * 32 + h % 32;
    assert h / 32 == b1 / 64;
  }

  lemma JoinSplit2(b2: Byte, b3: Byte)
    ensures var q4 := (b2 % 16) * 2 + b3 / 128;
            (b2 / 16) * 16 + q4 / 2 == b2 && q4 % 2 == b3 / 128
  {
    var x := b3 / 128;
    assert 0 <= x < 2;
    assert ((b2 % 16) * 2 + x) / 2 == b2 % 16;
  }

  lemma JoinSplit3(b3: Byte, b4: Byte)
    ensures var q5, q6 := (b3 / 4) % 32, (b3 % 4) * 8 + b4 / 32;
            (b3 / 128) * 128 + q5 * 4 + q6 / 8 == b3 && q6 % 8 == b4 / 32
  {
    var x := b4 / 32;
    assert 0 <= x < 8;
    assert ((b3 % 4) * 8 + x) / 8 == b3 % 4;
    var h := b3 / 4;
    assert h == (h / 32) * 32 + h % 32;
    assert h / 32 == b3 / 128;
  }

  lemma JoinSplit(b0: Byte, b1: Byte, b2: Byte, b3: Byte, b4: Byte)
    ensures Join(Split(b0, b1, b2, b3, b4)) == [b0, b1, b2, b3, b4]
  {
    JoinSplit0(b0, b1);
    JoinSplit1(b1, b2);
    JoinSplit2(b2, b3);
    JoinSplit3(b3, b4);
  }

  /** The number of symbols that carry input bits when a group holds `n` bytes. */
  function SymbolCount(n: nat): (k: nat)
    requires 1 <= n <= 5
    ensures k == (8 * n + 4) / 5
  {
    match n
    case 1 => 2
    case 2 => 4
    case 3 => 5
    case 4 => 7
    case 5 => 8
  }

  /** The number of bytes carried by a group with `k` data symbols. */
  function ByteCount(k: nat): (n: nat) {
    5 * k / 8
  }

  /** The encoding of one group of 1 to 5 bytes: always 8 characters. */
  function EncodeGroup(g: seq<Byte>): (r: string)
    requires 1 <= |g| <= 5
    ensures |r| == 8
    ensures forall i :: 0 <= i < 8 ==> (IsSymbol(r[i]) <==> i < SymbolCount(|g|))
    ensures forall i :: 0 <= i < 8 ==> (r[i] == Padding <==> SymbolCount(|g|) <= i)
  {
    var z := g + seq(5 - |g|, _ => 0);
    var q := Split(z[0], z[1], z[2], z[3], z[4]);
    var k := SymbolCount(|g|);
    seq(8, i requires 0 <= i < 8 => if i < k then Symbol(q[i]) else Padding)
  }

  /** `base32.StdEncoding.EncodeToString(src)`. */
  function Encode(src: seq<Byte>): (r: string)
    decreases |src|
  {
    if src == [] then []
    else if |src| <= 5 then EncodeGroup(src)
    else EncodeGroup(src[..5]) + Encode(src[5..])
  }

  /** The number of leading characters of `b` before its first padding character. */
  function DataSymbols(b: string): (k: nat)
    ensures k <= |b|
    ensures forall i :: 0 <= i < k ==> b[i] != Padding
    ensures k < |b| ==> b[k] == Padding
  {
    if b == [] || b[0] == Padding then 0 else 1 + DataSymbols(b[1..])
  }

  /** The bytes of one 8-character group. */
  function DecodeGroup(b: string): (bytes: seq<Byte>)
    requires |b| == 8
  {
    var bytes := Join(seq(8, i requires 0 <= i < 8 => Value(b[i])));
    bytes[..ByteCount(DataSymbols(b))]
  }

  /**
   * Decoding, the partner of Encode: it reads complete 8-character groups
   * and ignores a shorter remainder. It is not a model of Go's decoder
   * (which reports malformed input); it exists to show that Encode loses
   * nothing.
   */
  function Decode(s: string): (bytes: seq<Byte>)
    decreases |s|
  {
    if |s| < 8 then [] else DecodeGroup(s[..8]) + Decode(s[8..])
  }

  /** Input bytes that are missing from a short group read as zero bits, so the symbols after SymbolCount are 0. */
  lemma PaddedQuintetsAreZero(g: seq<Byte>)
    requires 1 <= |g| <= 5
    ensures var z := g + seq(5 - |g|, _ => 0);
            var q := Split(z[0], z[1], z[2], z[3], z[4]);
            forall i :: SymbolCount(|g|) <= i < 8 ==> q[i] == 0
  {
  }

  lemma DecodeEncodeGroup(g: seq<Byte>)
    requires 1 <= |g| <= 5
    ensures |EncodeGroup(g)| == 8
    ensures DecodeGroup(EncodeGroup(g)) == g
  {
    var z := g + seq(5 - |g|, _ => 0);
    var q := Split(z[0], z[1], z[2], z[3], z[4]);
    var k := SymbolCount(|g|);
    var e := EncodeGroup(g);
    PaddedQuintetsAreZero(g);
    forall i | 0 <= i < 8
      ensures Value(e[i]) == q[i]
    {
      if i < k { ValueOfSymbol(q[i]); }
    }
    assert seq(8, i requires 0 <= i < 8 => Value(e[i])) == q;
    JoinSplit(z[0], z[1], z[2], z[3], z[4]);
    assert z == [z[0], z[1], z[2], z[3], z[4]];
    DataSymbolsOfGroup(e, k);
    assert ByteCount(k) == |g|;
  }

  lemma DataSymbolsOfGroup(e: string, k: nat)
    requires k <= |e|
    requires forall i :: 0 <= i < k ==> e[i] != Padding
    requires k < |e| ==> e[k] == Padding
    ensures DataSymbols(e) == k
  {
  }

  /** Decode undoes Encode: base32 is injective. */
  lemma {:induction false} DecodeEncode(src: seq<Byte>)
    ensures Decode(Encode(src)) == src
    decreases |src|
  {
    if src == [] {
    } else if |src| <= 5 {
      DecodeEncodeGroup(src);
      assert Encode(src)[..8] == EncodeGroup(src);
      assert Encode(src)[8..] == [];
    } else {
      var head := EncodeGroup(src[..5]);
      DecodeEncodeGroup(src[..5]);
      DecodeEncode(src[5..]);
      assert Encode(src) == head + Encode(src[5..]);
      assert (head + Encode(src[5..]))[..8] == head;
      assert (head + Encode(src[5..]))[8..] == Encode(src[5..]);
      assert src == src[..5] + src[5..];
    }
  }

  lemma EncodeInjective(a: seq<Byte>, b: seq<Byte>)
    requires Encode(a) == Encode(b)
    ensures a == b
  {
    DecodeEncode(a);
    DecodeEncode(b);
  }

  /** The output has 8 characters per started group of 5 input bytes. */
  lemma {:induction false} EncodeLength(src: seq<Byte>)
    ensures |Encode(src)| == (|src| + 4) / 5 * 8
    decreases |src|
  {
    if |src| > 5 {
      EncodeLength(src[5..]);
      assert (|src| + 4) / 5 == (|src[5..]| + 4) / 5 + 1;
    }
  }

  /**
   * Every character of the output is a symbol of the alphabet or padding,
   * and when the input length is a multiple of 5 there is no padding at all.
   */
  lemma {:induction false} EncodeAlphabet(src: seq<Byte>)
    ensures forall c :: c in Encode(src) ==> IsSymbol(c) || c == Padding
    ensures |src| % 5 == 0 ==> forall c :: c in Encode(src) ==> IsSymbol(c)
    decreases |src|
  {
    if src == [] {
    } else if |src| <= 5 {
      var e := EncodeGroup(src);
      forall c | c in e ensures IsSymbol(c) || c == Padding
        ensures |src| % 5 == 0 ==> IsSymbol(c)
      {
        var i :| 0 <= i < 8 && e[i] == c;
      }
    } else {
      var head, tail := EncodeGroup(src[..5]), Encode(src[5..]);
      EncodeAlphabet(src[5..]);
      assert Encode(src) == head + tail;
      forall c | c in head ensures IsSymbol(c) {
        var i :| 0 <= i < 8 && head[i] == c;
      }
    }
  }
}
