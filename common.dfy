/** Failure-compatible wrappers shared by every module of the model. */
module Wrappers {

  datatype Option<+T> = None | Some(value: T)

  datatype Result<+T, +E> = Success(value: T) | Failure(error: E) {
    predicate IsFailure() {
      Failure?
    }

    function PropagateFailure<U>(): Result<U, E>
      requires Failure?
    {
      Failure(error)
    }

    function Extract(): T
      requires Success?
    {
      value
    }
  }
}

/** Bytes and the big-endian integer arithmetic the log frame header uses. */
module Bytes {
  import opened Seqs

  /** An 8-bit byte. */
  type byte = x: int | 0 <= x < 256

  /** Go's int64. */
  type Int64 = x: int | -0x8000_0000_0000_0000 <= x < 0x8000_0000_0000_0000

  const Newline: byte := 10

  function Zeros(n: nat): (z: seq<byte>)
    ensures |z| == n && forall i :: 0 <= i < n ==> z[i] == 0
  {
    seq(n, _ => 0)
  }

  /** The low 8 bits of x, which is what Go's `byte(x & 0xff)` keeps (two's complement). */
  function LowByte(x: int): (b: byte)
    ensures (x - b) % 256 == 0
  {
    x % 256
  }

  /** Go's arithmetic shift `x >> (8 * k)`: k floor divisions by 256. */
  function Shr(x: int, k: nat): (r: int)
    ensures x >= 0 ==> 0 <= r <= x
  {
    if k == 0 then x else Shr(x, k - 1) / 256
  }

  /** Bitwise OR of two naturals, bit by bit from the least significant. */
  function BitOr(a: nat, b: nat): (r: nat)
    ensures (r == 0) <==> (a == 0 && b == 0)
    ensures r % 2 == (if a % 2 == 1 || b % 2 == 1 then 1 else 0)
    decreases a + b
  {
    if a == 0 then b
    else if b == 0 then a
    else
      var q := BitOr(a / 2, b / 2);
      var bit := if a % 2 == 1 || b % 2 == 1 then 1 else 0;
      DoublePlusBit(q, bit);
      2 * q + bit
  }

  lemma DoublePlusBit(q: nat, bit: nat)
    requires bit <= 1
    ensures (2 * q + bit) % 2 == bit
  {
  }

  /** Bitwise AND of two naturals, bit by bit from the least significant. */
  function BitAnd(a: nat, b: nat): (r: nat)
    ensures r <= a && r <= b
    ensures r % 2 == (if a % 2 == 1 && b % 2 == 1 then 1 else 0)
    decreases a + b
  {
    if a == 0 || b == 0 then 0
    else
      var r := BitAnd(a / 2, b / 2);
      var bit := if a % 2 == 1 && b % 2 == 1 then 1 else 0;
      DoublePlusBit(r, bit);
      HalfBound(a, r, bit);
      HalfBound(b, r, bit);
      2 * r + bit
  }

  lemma HalfBound(a: nat, r: nat, bit: nat)
    requires r <= a / 2 && bit <= a % 2
    ensures 2 * r + bit <= a
  {
  }

  lemma MulAssoc(x: nat, y: nat, z: nat)
    ensures x * y * z == x * (y * z) && y * z == z * y
  {
  }

  function Pow256(n: nat): (p: nat)
    ensures p > 0
  {
    if n == 0 then 1 else 256 * Pow256(n - 1)
  }

  lemma Pow256Small()
    ensures Pow256(1) == 0x100 && Pow256(2) == 0x1_0000 && Pow256(3) == 0x100_0000
    ensures Pow256(4) == 0x1_0000_0000 && Pow256(5) == 0x100_0000_0000
  {
    assert Pow256(1) == 256 * Pow256(0);
    assert Pow256(2) == 256 * Pow256(1);
    assert Pow256(3) == 256 * Pow256(2);
    assert Pow256(4) == 256 * Pow256(3);
    assert Pow256(5) == 256 * Pow256(4);
  }

  /** The unsigned big-endian value of s: what `v = v<<8 | b` over s computes. */
  function BeUint(s: seq<byte>): nat
  {
    if s == [] then 0 else BeUint(s[..|s| - 1]) * 256 + s[|s| - 1]
  }

  lemma {:induction false} BeUintBound(s: seq<byte>)
    ensures BeUint(s) < Pow256(|s|)
  {
    if s != [] {
      BeUintBound(s[..|s| - 1]);
    }
  }

  /** The n low bytes of x, big-endian: the inverse of BeUint on n-byte sequences. */
  function ToBytes(x: nat, n: nat): (s: seq<byte>)
    ensures |s| == n
  {
    if n == 0 then [] else ToBytes(x / 256, n - 1) + [x % 256]
  }

  lemma {:induction false} ToBytesBeUint(s: seq<byte>)
    ensures ToBytes(BeUint(s), |s|) == s
  {
    if s != [] {
      var p := s[..|s| - 1];
      ToBytesBeUint(p);
      assert BeUint(s) / 256 == BeUint(p);
      assert p + [s[|s| - 1]] == s;
    }
  }

  /** Zero bytes appended at the end multiply the big-endian value by a power of 256. */
  lemma {:induction false} BeUintZeros(s: seq<byte>, n: nat)
    ensures BeUint(s + Zeros(n)) == BeUint(s) * Pow256(n)
  {
    if n > 0 {
      var t := s + Zeros(n);
      BeUintZeros(s, n - 1);
      AppendInit(s, Zeros(n));
      assert Zeros(n)[..n - 1] == Zeros(n - 1);
      assert BeUint(t) == BeUint(s) * Pow256(n - 1) * 256;
      MulAssoc(BeUint(s), Pow256(n - 1), 256);
    } else {
      AppendEmpty(s);
    }
  }

  /** Go's int64 wrap-around: the value congruent to x modulo 2^64 in the int64 range. */
  function Wrap64(x: int): (r: Int64)
    ensures (r - x) % 0x1_0000_0000_0000_0000 == 0
  {
    (x + 0x8000_0000_0000_0000) % 0x1_0000_0000_0000_0000 - 0x8000_0000_0000_0000
  }

  /** The signed reading of an unsigned 64-bit value. */
  function SignedOf(u: nat): Int64
    requires u < 0x1_0000_0000_0000_0000
  {
    if u < 0x8000_0000_0000_0000 then u else u - 0x1_0000_0000_0000_0000
  }

  lemma BeUint3(s: seq<byte>)
    requires |s| == 3
    ensures BeUint(s) == s[0] as int * 65536 + s[1] as int * 256 + s[2] as int
  {
    assert s[..2][..1] == s[..1];
    assert s[..1][..0] == [];
    assert BeUint(s[..1]) == s[0];
    assert BeUint(s[..2]) == s[0] as int * 256 + s[1] as int;
  }

  lemma BeUint8(s: seq<byte>)
    requires |s| == 8
    ensures BeUint(s) == s[0] as int * 0x100_0000_0000_0000 + s[1] as int * 0x1_0000_0000_0000
                       + s[2] as int * 0x100_0000_0000 + s[3] as int * 0x1_0000_0000
                       + s[4] as int * 0x100_0000 + s[5] as int * 0x1_0000
                       + s[6] as int * 0x100 + s[7] as int
  {
    assert s[..1][..0] == [];
    assert BeUint(s[..1]) == s[0];
    assert s[..2][..1] == s[..1];
    assert BeUint(s[..2]) == BeUint(s[..1]) * 256 + s[1] as int;
    assert s[..3][..2] == s[..2];
    assert BeUint(s[..3]) == BeUint(s[..2]) * 256 + s[2] as int;
    assert s[..4][..3] == s[..3];
    assert BeUint(s[..4]) == BeUint(s[..3]) * 256 + s[3] as int;
    assert s[..5][..4] == s[..4];
    assert BeUint(s[..5]) == BeUint(s[..4]) * 256 + s[4] as int;
    assert s[..6][..5] == s[..5];
    assert BeUint(s[..6]) == BeUint(s[..5]) * 256 + s[5] as int;
    assert s[..7][..6] == s[..6];
    assert BeUint(s[..7]) == BeUint(s[..6]) * 256 + s[6] as int;
    assert s[..8] == s;
  }
}

/** Small facts about sequences that the proofs elsewhere cite by name. */
module Seqs {

  lemma HeadTail<T>(es: seq<T>)
    requires es != []
    ensures [es[0]] + es[1..] == es
  {
  }

  lemma PrefixGrows<T>(es: seq<T>, i: nat)
    requires i < |es|
    ensures es[..i + 1][..i] == es[..i] && es[..i + 1][i] == es[i]
  {
  }

  lemma WholePrefix<T>(es: seq<T>)
    ensures es[..|es|] == es
  {
  }

  lemma InitLast<T>(es: seq<T>)
    requires es != []
    ensures es[..|es| - 1] + [es[|es| - 1]] == es
  {
  }

  lemma AppendEmpty<T>(a: seq<T>)
    ensures a + [] == a
  {
  }

  lemma AppendInit<T>(a: seq<T>, b: seq<T>)
    requires b != []
    ensures (a + b)[..|a + b| - 1] == a + b[..|b| - 1] && (a + b)[|a + b| - 1] == b[|b| - 1]
  {
  }

  lemma AppendParts<T>(a: seq<T>, b: seq<T>)
    ensures (a + b)[..|a|] == a && (a + b)[|a|..] == b
  {
  }

  lemma Assoc<T>(a: seq<T>, b: seq<T>, c: seq<T>)
    ensures (a + b) + c == a + (b + c)
  {
  }

  lemma SliceOfSuffix<T>(s: seq<T>, i: nat, n: nat)
    requires i + n <= |s|
    ensures s[i..][..n] == s[i..i + n]
  {
  }
}
