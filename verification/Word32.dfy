/** 32-bit words: two's-complement reading, wrap-around, and little-endian bytes.

    The source system is a 32-bit one throughout; a machine word is an integer in
    [0, 2^32) and every wrap-around is written out.
 */
module Word32 {
  import opened Options

  const TWO31: int := 0x8000_0000
  const TWO32: int := 0x1_0000_0000

  type Word = x: int | 0 <= x < TWO32 witness 0
  type Byte = x: int | 0 <= x < 256 witness 0

  /** The word congruent to `x`. */
  function Wrap(x: int): Word { x % TWO32 }

  /** The signed reading of a word. */
  function Signed(w: Word): int { if w < TWO31 then w else w - TWO32 }

  lemma WrapSigned(w: Word)
    ensures Wrap(Signed(w)) == w
  {
  }

  lemma SignedWrap(x: int)
    requires -TWO31 <= x < TWO31
    ensures Signed(Wrap(x)) == x
  {
    if x < 0 { assert Wrap(x) == x + TWO32; }
  }

  /** Adding a multiple of 2^32 does not change the wrapped value. */
  lemma WrapShift(x: int, k: int)
    ensures Wrap(x + k * TWO32) == Wrap(x)
  {
  }

  lemma WrapAdd(x: int, y: int)
    ensures Wrap(Wrap(x) + y) == Wrap(x + y)
  {
    assert x == Wrap(x) + (x / TWO32) * TWO32;
    WrapShift(Wrap(x) + y, x / TWO32);
  }

  lemma WrapMulSigned(a: Word, b: Word)
    ensures Wrap(Signed(a) * Signed(b)) == Wrap(a * b)
  {
    var i := if a < TWO31 then 0 else 1;
    var j := if b < TWO31 then 0 else 1;
    assert Signed(a) == a - i * TWO32 && Signed(b) == b - j * TWO32;
    var k := i * j * TWO32 - i * b - j * a;
    assert Signed(a) * Signed(b) == a * b + k * TWO32 by {
      assert (a - i * TWO32) * (b - j * TWO32)
          == a * b - a * (j * TWO32) - (i * TWO32) * b + (i * TWO32) * (j * TWO32);
      assert a * (j * TWO32) == (j * a) * TWO32;
      assert (i * TWO32) * b == (i * b) * TWO32;
      assert (i * TWO32) * (j * TWO32) == (i * j * TWO32) * TWO32;
    }
    WrapShift(a * b, k);
  }

  /** C division: the quotient truncated toward zero. */
  function TruncDiv(a: int, b: int): int
    requires b != 0
  {
    if a >= 0 then (if b > 0 then a / b else -(a / -b))
    else (if b > 0 then -(-a / b) else -a / -b)
  }

  function TruncMod(a: int, b: int): int
    requires b != 0
  {
    a - b * TruncDiv(a, b)
  }

  function Pow2(n: nat): (p: nat)
    ensures p > 0
  {
    if n == 0 then 1 else 2 * Pow2(n - 1)
  }

  datatype BitOp = BAnd | BOr | BXor

  function Bit(op: BitOp, x: int, y: int): (b: nat)
    requires 0 <= x <= 1 && 0 <= y <= 1
    ensures b <= 1
  {
    match op
    case BAnd => if x == 1 && y == 1 then 1 else 0
    case BOr => if x == 1 || y == 1 then 1 else 0
    case BXor => if x != y then 1 else 0
  }

  /** Bitwise operation on the low `n` bits of two naturals. */
  function Bitwise(op: BitOp, a: nat, b: nat, n: nat): (r: nat)
    ensures r < Pow2(n)
  {
    if n == 0 then 0
    else Bit(op, a % 2, b % 2) + 2 * Bitwise(op, a / 2, b / 2, n - 1)
  }

  lemma {:induction false} Pow2Thirty2()
    ensures Pow2(32) == TWO32
  {
    assert Pow2(8) == 256;
    assert Pow2(16) == 65536;
    assert Pow2(24) == 16777216;
  }

  function WBits(op: BitOp, a: Word, b: Word): Word {
    Pow2Thirty2();
    Bitwise(op, a, b, 32)
  }

  // ----- little-endian bytes -----

  /** The four bytes `write32` stores for `v`. */
  function Bytes4(v: Word): (s: seq<Byte>)
    ensures |s| == 4
  {
    [v % 256, v / 256 % 256, v / 65536 % 256, v / 16777216]
  }

  function Word4(b0: Byte, b1: Byte, b2: Byte, b3: Byte): Word {
    b0 + 256 * b1 + 65536 * b2 + 16777216 * b3
  }

  /** The word stored at `off`. */
  function ReadWord(s: seq<Byte>, off: nat): Word
    requires off + 4 <= |s|
  {
    Word4(s[off], s[off + 1], s[off + 2], s[off + 3])
  }

  /** `s` holds `b` at `p`. */
  ghost predicate HasAt(s: seq<Byte>, p: nat, b: seq<Byte>) {
    p + |b| <= |s| && forall i :: 0 <= i < |b| ==> s[p + i] == b[i]
  }

  lemma ReadBytes4(v: Word)
    ensures ReadWord(Bytes4(v), 0) == v
  {
    var q1: int, q2: int, q3: int := v / 256, v / 65536, v / 16777216;
    assert v == 256 * q1 + v % 256;
    assert q1 == 256 * q2 + q1 % 256;
    assert q2 == 256 * q3 + q2 % 256;
  }

  lemma LowByte(b: int, rest: int)
    requires 0 <= b < 256
    ensures (b + 256 * rest) % 256 == b && (b + 256 * rest) / 256 == rest
  {
  }

  lemma Bytes4Read(s: seq<Byte>)
    requires |s| == 4
    ensures Bytes4(ReadWord(s, 0)) == s
  {
    var b0: int, b1: int, b2: int, b3: int := s[0], s[1], s[2], s[3];
    var q2 := b2 + 256 * b3;
    var q1 := b1 + 256 * q2;
    var v: Word := ReadWord(s, 0);
    LowByte(b0, q1);
    LowByte(b1, q2);
    LowByte(b2, b3);
    assert v == b0 + 256 * q1;
    assert v / 65536 == v / 256 / 256;
    assert v / 16777216 == v / 256 / 256 / 256;
  }

  /** `s` with the four bytes of `v` written at `off`. */
  function Patch4(s: seq<Byte>, off: nat, v: Word): (r: seq<Byte>)
    requires off + 4 <= |s|
    ensures |r| == |s|
    ensures ReadWord(r, off) == v
    ensures forall i :: 0 <= i < |s| && !(off <= i < off + 4) ==> r[i] == s[i]
  {
    var r := s[..off] + Bytes4(v) + s[off + 4..];
    assert r[off] == Bytes4(v)[0] && r[off + 1] == Bytes4(v)[1]
        && r[off + 2] == Bytes4(v)[2] && r[off + 3] == Bytes4(v)[3];
    ReadBytes4(v);
    r
  }
}
