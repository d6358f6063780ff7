/**
 * Base 32 encoding with the standard alphabet and '=' padding (section 6 of RFC 4648), as
 * Go's `base32.StdEncoding` applies it to the log frame header. Encode is the encoder;
 * Decode is the strict decoder of well-formed padded input. Both work on bytes, since the
 * encoded header is written into a byte buffer.
 */
module Base32 {
  import opened Wrappers
  import opened Bytes

  /** The padding character '='. */
  const PadChar: byte := 61

  /** The symbol for a 5-bit value: 'A'..'Z' for 0..25, then '2'..'7' for 26..31. */
  function Symbol(v: nat): (c: byte)
    requires v < 32
    ensures c != PadChar
    ensures (65 <= c <= 90) || (50 <= c <= 55)
  {
    if v < 26 then 65 + v else 24 + v
  }

  /** A 5-bit value: what one symbol carries. */
  type Five = v: nat | v < 32

  /** The decoding table: the 5-bit value of a symbol, or None for any other byte. */
  function SymbolValue(c: byte): (r: Option<Five>)
    ensures r.Some? <==> (65 <= c <= 90) || (50 <= c <= 55)
    ensures r.Some? ==> Symbol(r.value) == c
  {
    if 65 <= c <= 90 then Some(c - 65) else if 50 <= c <= 55 then Some(c - 24) else None
  }

  lemma SymbolValueOfSymbol(v: nat)
    requires v < 32
    ensures SymbolValue(Symbol(v)) == Some(v)
  {
  }

  /** Go's `EncodedLen` for a padded encoding: every started 5-byte group takes 8 symbols. */
  function EncodedLen(n: nat): nat
  {
    (n + 4) / 5 * 8
  }

  function Pow32(n: nat): (p: nat)
    ensures p > 0
  {
    if n == 0 then 1 else 32 * Pow32(n - 1)
  }

  lemma Pow32Small()
    ensures Pow32(1) == 0x20 && Pow32(3) == 0x8000 && Pow32(4) == 0x10_0000
    ensures Pow32(6) == 0x4000_0000 && Pow32(8) == 0x100_0000_0000
  {
    assert Pow32(1) == 32 * Pow32(0);
    assert Pow32(2) == 32 * Pow32(1);
    assert Pow32(3) == 32 * Pow32(2);
    assert Pow32(4) == 32 * Pow32(3);
    assert Pow32(5) == 32 * Pow32(4);
    assert Pow32(6) == 32 * Pow32(5);
    assert Pow32(7) == 32 * Pow32(6);
    assert Pow32(8) == 32 * Pow32(7);
  }

  /**
   * The n low base-32 digits of x, most significant first. A group of five bytes is the
   * 40-bit big-endian number BeUint of them, and its eight symbols are its eight digits.
   */
  function ToDigits(x: nat, n: nat): (ds: seq<Five>)
    ensures |ds| == n
  {
    if n == 0 then [] else ToDigits(x / 32, n - 1) + [x % 32]
  }

  /** The number whose big-endian base-32 digits are ds. */
  function DigitsValue(ds: seq<Five>): nat
  {
    if ds == [] then 0 else DigitsValue(ds[..|ds| - 1]) * 32 + ds[|ds| - 1]
  }

  /** No bit is lost in cutting a number of at most 5n bits into n digits. */
  lemma {:induction false} DigitsValueToDigits(x: nat, n: nat)
    requires x < Pow32(n)
    ensures DigitsValue(ToDigits(x, n)) == x
  {
    if n > 0 {
      DigitsValueToDigits(x / 32, n - 1);
      assert ToDigits(x, n)[..n - 1] == ToDigits(x / 32, n - 1);
    }
  }

  /** A multiple of 32^m ends in m zero digits. */
  lemma {:induction false} ToDigitsLowZeros(x: nat, y: nat, n: nat, m: nat, ds: seq<Five>)
    requires m <= n && x == y * Pow32(m) && ds == ToDigits(x, n)
    ensures forall i :: n - m <= i < n ==> ds[i] == 0
  {
    if m > 0 {
      var x' := y * Pow32(m - 1);
      assert x == x' * 32;
      assert x / 32 == x' && x % 32 == 0;
      ToDigitsLowZeros(x', y, n - 1, m - 1, ToDigits(x', n - 1));
    }
  }

  /** How many symbols a final group of k bytes needs; the rest of its 8 characters are padding. */
  function SymbolCount(k: nat): (n: nat)
    requires 1 <= k <= 5
    ensures 2 <= n <= 8
  {
    match k
    case 1 => 2
    case 2 => 4
    case 3 => 5
    case 4 => 7
    case 5 => 8
  }

  /** How many bytes d symbols of a group carry; 0 for a symbol count no group can have. */
  function ByteCount(d: nat): nat
  {
    match d
    case 2 => 1
    case 4 => 2
    case 5 => 3
    case 7 => 4
    case 8 => 5
    case _ => 0
  }

  /** One group of 1 to 5 bytes as 8 characters, padded with '=' when it is short. */
  function EncodeBlock(g: seq<byte>): (q: seq<byte>)
    requires 1 <= |g| <= 5
    ensures |q| == 8
  {
    var ds := ToDigits(BeUint(g + Zeros(5 - |g|)), 8);
    var k := SymbolCount(|g|);
    seq(8, i requires 0 <= i < 8 => if i < k then Symbol(ds[i]) else PadChar)
  }

  /** A group's encoding is SymbolCount(|g|) symbols followed by padding. */
  lemma EncodeBlockShape(g: seq<byte>)
    requires 1 <= |g| <= 5
    ensures var q := EncodeBlock(g);
      && (forall i :: 0 <= i < SymbolCount(|g|) ==> q[i] != PadChar)
      && (forall i :: SymbolCount(|g|) <= i < 8 ==> q[i] == PadChar)
  {
  }

  function Encode(src: seq<byte>): (r: seq<byte>)
    ensures |r| == EncodedLen(|src|)
    decreases |src|
  {
    if |src| == 0 then []
    else if |src| <= 5 then EncodeBlock(src)
    else EncodeBlock(src[..5]) + Encode(src[5..])
  }

  /** The index of the first padding character of q, or |q| when there is none. */
  function FirstPad(q: seq<byte>): (d: nat)
    ensures d <= |q|
    ensures forall i :: 0 <= i < d ==> q[i] != PadChar
    ensures d < |q| ==> q[d] == PadChar
  {
    if q == [] then 0 else if q[0] == PadChar then 0 else 1 + FirstPad(q[1..])
  }

  lemma {:induction false} FirstPadIs(q: seq<byte>, k: nat)
    requires k <= |q|
    requires forall i :: 0 <= i < k ==> q[i] != PadChar
    requires k < |q| ==> q[k] == PadChar
    ensures FirstPad(q) == k
  {
    if k > 0 {
      FirstPadIs(q[1..], k - 1);
    }
  }

  /**
   * One group of 8 characters: its leading symbols, then only padding, where padding is
   * allowed in the final group only and only after 2, 4, 5 or 7 symbols. Bits of the last
   * symbol that fall outside the decoded bytes are ignored, as Go's decoder does.
   */
  function DecodeBlock(q: seq<byte>, final: bool): (r: Option<seq<byte>>)
    requires |q| == 8
    ensures r.Some? ==> |r.value| == ByteCount(FirstPad(q)) && 1 <= |r.value| <= 5
    ensures r.Some? && !final ==> |r.value| == 5
  {
    var d := FirstPad(q);
    if (d < 8 && !final) || ByteCount(d) == 0 then None
    else if exists i :: d <= i < 8 && q[i] != PadChar then None
    else if exists i :: 0 <= i < d && SymbolValue(q[i]).None? then None
    else
      Some(ToBytes(DigitsValue(Digits(q, d)), 5)[..ByteCount(d)])
  }

  /** The value of the i-th character of a group: its symbol's value before d, else 0. */
  function Digit(q: seq<byte>, i: nat, d: nat): Five
    requires i < |q|
  {
    if i < d then match SymbolValue(q[i]) case Some(v) => v case None => 0 else 0
  }

  function Digits(q: seq<byte>, d: nat): (ds: seq<Five>)
    requires |q| == 8
    ensures |ds| == 8
  {
    seq(8, i requires 0 <= i < 8 => Digit(q, i, d))
  }

  function Decode(s: seq<byte>): Option<seq<byte>>
    decreases |s|
  {
    if |s| == 0 then Some([])
    else if |s| < 8 then None
    else
      match DecodeBlock(s[..8], |s| == 8)
      case None => None
      case Some(b) =>
        match Decode(s[8..])
        case None => None
        case Some(rest) => Some(b + rest)
  }

  lemma Regroup(v: nat, p: nat, c: nat, q: nat)
    requires p == c * q
    ensures v * c >= 0 && v * p == (v * c) * q
  {
  }

  /** When 256^(5 - |g|) is a multiple of 32^m, padding g with zeros leaves m zero digits. */
  lemma PaddedLowZeros(g: seq<byte>, ds: seq<Five>, c: nat, m: nat)
    requires 1 <= |g| <= 5 && m <= 8
    requires ds == ToDigits(BeUint(g + Zeros(5 - |g|)), 8)
    requires Pow256(5 - |g|) == c * Pow32(m)
    ensures forall i :: 8 - m <= i < 8 ==> ds[i] == 0
  {
    var v := BeUint(g);
    var x := BeUint(g + Zeros(5 - |g|));
    BeUintZeros(g, 5 - |g|);
    Regroup(v, Pow256(5 - |g|), c, Pow32(m));
    ToDigitsLowZeros(x, v * c, 8, m, ds);
  }

  /** 256^(5 - k) over 32^(8 - SymbolCount(k)): the padding bits below the last symbol. */
  function SpareFactor(k: nat): nat
    requires 1 <= k <= 5
  {
    match k
    case 1 => 4
    case 2 => 16
    case 3 => 2
    case 4 => 8
    case 5 => 1
  }

  lemma SpareFactorPow(k: nat)
    requires 1 <= k <= 5
    ensures Pow256(5 - k) == SpareFactor(k) * Pow32(8 - SymbolCount(k))
  {
    Pow256Small();
    Pow32Small();
  }

  /** The digits of a zero-padded short group past its symbol count are zero. */
  lemma PaddedDigitsZero(g: seq<byte>, ds: seq<Five>)
    requires 1 <= |g| <= 5
    requires ds == ToDigits(BeUint(g + Zeros(5 - |g|)), 8)
    ensures forall i :: SymbolCount(|g|) <= i < 8 ==> ds[i] == 0
  {
    SpareFactorPow(|g|);
    PaddedLowZeros(g, ds, SpareFactor(|g|), 8 - SymbolCount(|g|));
  }

  /** The characters of an encoded group give back its digits and where its padding starts. */
  lemma EncodeBlockDigits(g: seq<byte>)
    requires 1 <= |g| <= 5
    ensures var q := EncodeBlock(g);
      var k := SymbolCount(|g|);
      && FirstPad(q) == k
      && (forall i :: 0 <= i < k ==> SymbolValue(q[i]).Some?)
      && Digits(q, k) == ToDigits(BeUint(g + Zeros(5 - |g|)), 8)
  {
    var q := EncodeBlock(g);
    var ds := ToDigits(BeUint(g + Zeros(5 - |g|)), 8);
    var k := SymbolCount(|g|);
    assert forall i :: 0 <= i < k ==> q[i] == Symbol(ds[i]);
    assert forall i :: k <= i < 8 ==> q[i] == PadChar;
    FirstPadIs(q, k);
    PaddedDigitsZero(g, ds);
    forall i | 0 <= i < 8 ensures Digit(q, i, k) == ds[i] {
      if i < k {
        SymbolValueOfSymbol(ds[i]);
        assert q[i] == Symbol(ds[i]);
        assert SymbolValue(q[i]) == Some(ds[i]);
        assert Digit(q, i, k) == ds[i];
      } else {
        assert ds[i] == 0;
      }
    }
    assert Digits(q, k) == ds;
  }

  /** Digits to value to bytes restores a zero-padded group, so its prefix is the group. */
  lemma PaddedValue(g: seq<byte>)
    requires 1 <= |g| <= 5
    ensures ToBytes(DigitsValue(ToDigits(BeUint(g + Zeros(5 - |g|)), 8)), 5)[..|g|] == g
  {
    var padded := g + Zeros(5 - |g|);
    BeUintBound(padded);
    Pow256Small();
    Pow32Small();
    DigitsValueToDigits(BeUint(padded), 8);
    ToBytesBeUint(padded);
    assert padded[..|g|] == g;
  }

  lemma DecodeBlockEncodeBlock(g: seq<byte>, final: bool)
    requires 1 <= |g| <= 5
    requires |g| < 5 ==> final
    ensures DecodeBlock(EncodeBlock(g), final) == Some(g)
  {
    EncodeBlockDigits(g);
    PaddedValue(g);
    EncodeBlockShape(g);
    assert ByteCount(SymbolCount(|g|)) == |g|;
  }

  /** Decoding undoes encoding, for every byte sequence. */
  lemma {:induction false} DecodeEncode(src: seq<byte>)
    ensures Decode(Encode(src)) == Some(src)
    decreases |src|
  {
    if |src| == 0 {
    } else if |src| <= 5 {
      var s := Encode(src);
      DecodeBlockEncodeBlock(src, true);
      assert s[..8] == s && s[8..] == [];
      assert src + [] == src;
    } else {
      var s := Encode(src);
      assert s[..8] == EncodeBlock(src[..5]);
      assert s[8..] == Encode(src[5..]);
      DecodeBlockEncodeBlock(src[..5], |s| == 8);
      DecodeEncode(src[5..]);
      assert src[..5] + src[5..] == src;
    }
  }

  /** The encoding is printable text: every character is a symbol or padding. */
  lemma {:induction false} EncodePrintable(src: seq<byte>)
    ensures forall i :: 0 <= i < |Encode(src)| ==>
      SymbolValue(Encode(src)[i]).Some? || Encode(src)[i] == PadChar
    decreases |src|
  {
    if |src| > 5 {
      EncodePrintable(src[5..]);
      var s := Encode(src);
      assert s == EncodeBlock(src[..5]) + Encode(src[5..]);
      forall i | 0 <= i < |s| ensures SymbolValue(s[i]).Some? || s[i] == PadChar {
        if i >= 8 {
          assert s[i] == Encode(src[5..])[i - 8];
        }
      }
    }
  }
}
