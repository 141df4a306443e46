/**
 * Fixed-width integer payloads of an M-Bus data record: the bytes are
 * little-endian and the value is the two's-complement reading of the whole
 * field, sign-extended to a 64-bit Java long.
 */
module LittleEndian {

  /** One octet of the wire buffer. */
  type byte = x: int | 0 <= x < 256

  /** 256^n, the number of distinct n-byte patterns. */
  function Pow256(n: nat): (r: int)
    ensures r >= 1
  {
    if n == 0 then 1 else 256 * Pow256(n - 1)
  }

  /** Smallest and largest values of a Java long. */
  const LONG_MIN: int := -0x8000_0000_0000_0000
  const LONG_MAX: int := 0x7FFF_FFFF_FFFF_FFFF

  /** The unsigned reading of a little-endian byte sequence. */
  function UnsignedLE(s: seq<byte>): int
  {
    if s == [] then 0 else s[0] + 256 * UnsignedLE(s[1..])
  }

  /** The sign bit of a field is bit 7 of its most significant (last) byte. */
  predicate SignBitSet(s: seq<byte>)
    requires |s| > 0
  {
    s[|s| - 1] >= 0x80
  }

  /**
   * The two's-complement reading of a little-endian field of |s| bytes:
   * the unsigned reading, minus 256^|s| when the sign bit is set.
   */
  function SignedLE(s: seq<byte>): (r: int)
    requires |s| > 0
    ensures -(Pow256(|s|) / 2) <= r < Pow256(|s|) / 2
    ensures r < 0 <==> SignBitSet(s)
  {
    UnsignedBounds(s);
    TopByteBounds(s);
    UnsignedLE(s) - (if SignBitSet(s) then Pow256(|s|) else 0)
  }

  lemma {:induction false} UnsignedBounds(s: seq<byte>)
    ensures 0 <= UnsignedLE(s) < Pow256(|s|)
  {
    if s != [] {
      UnsignedBounds(s[1..]);
    }
  }

  /** The last byte alone decides which half of the unsigned range a field is in. */
  lemma {:induction false} TopByteBounds(s: seq<byte>)
    requires |s| > 0
    ensures SignBitSet(s) <==> UnsignedLE(s) >= Pow256(|s|) / 2
  {
    if |s| == 1 {
      assert s[1..] == [];
    } else {
      TopByteBounds(s[1..]);
      UnsignedBounds(s[1..]);
      assert s[1..][|s[1..]| - 1] == s[|s| - 1];
      assert Pow256(|s|) / 2 == 256 * (Pow256(|s| - 1) / 2) by {
        Pow256Even(|s| - 1);
      }
    }
  }

  lemma Pow256Even(n: nat)
    requires n > 0
    ensures Pow256(n) % 2 == 0
  {
  }

  /** Every field of at most eight bytes fits in a Java long. */
  lemma {:induction false} SignedFitsLong(s: seq<byte>)
    requires 0 < |s| <= 8
    ensures LONG_MIN <= SignedLE(s) <= LONG_MAX
  {
    Pow256Monotone(|s|, 8);
    assert Pow256(8) == 0x1_0000_0000_0000_0000;
  }

  lemma {:induction false} Pow256Monotone(m: nat, n: nat)
    requires m <= n
    ensures Pow256(m) <= Pow256(n)
  {
    if m < n {
      Pow256Monotone(m, n - 1);
    }
  }

  /**
   * Shifting one more low byte under a field: the reading of [b] + u is
   * b plus 256 times the reading of u, sign bit included.
   */
  lemma SignedLECons(b: byte, u: seq<byte>)
    requires |u| > 0
    ensures SignedLE([b] + u) == b + 256 * SignedLE(u)
  {
    var s := [b] + u;
    assert s[1..] == u;
    assert s[|s| - 1] == u[|u| - 1];
  }

  /**
   * Reads the width-byte little-endian field at buffer[start..] as a signed
   * long: the most significant byte is sign-extended first, then each
   * lower byte is shifted in.
   */
  method ReadLong(buffer: array<byte>, start: nat, width: nat) returns (v: int)
    requires 0 < width <= 8 && start + width <= buffer.Length
    ensures v == SignedLE(buffer[start..start + width])
    ensures LONG_MIN <= v <= LONG_MAX
  {
    ghost var field := buffer[start..start + width];
    var top: int := buffer[start + width - 1];
    v := if top >= 0x80 then top - 0x100 else top;
    var j := width - 1;
    assert field[j..] == [top];
    while j > 0
      invariant 0 <= j < width
      invariant v == SignedLE(field[j..])
    {
      j := j - 1;
      assert field[j..] == [buffer[start + j]] + field[j + 1..];
      SignedLECons(buffer[start + j], field[j + 1..]);
      v := v * 256 + buffer[start + j];
    }
    assert field[0..] == field;
    SignedFitsLong(field);
  }

  /** The width-byte little-endian two's-complement encoding of v. */
  function EncodeLE(v: int, width: nat): (s: seq<byte>)
    ensures |s| == width
    decreases width
  {
    if width == 0 then [] else [v % 256] + EncodeLE(v / 256, width - 1)
  }

  /** A width-byte field holds exactly the values in this range. */
  predicate FitsWidth(v: int, width: nat)
  {
    width > 0 && -(Pow256(width) / 2) <= v < Pow256(width) / 2
  }

  /** Encoding a value that fits and reading it back gives the value. */
  lemma {:induction false} DecodeEncode(v: int, width: nat)
    requires FitsWidth(v, width)
    ensures SignedLE(EncodeLE(v, width)) == v
    decreases width
  {
    var s := EncodeLE(v, width);
    if width == 1 {
      assert s == [v % 256];
    } else {
      Pow256Even(width - 1);
      assert Pow256(width) / 2 == 256 * (Pow256(width - 1) / 2);
      DecodeEncode(v / 256, width - 1);
      SignedLECons(v % 256, EncodeLE(v / 256, width - 1));
    }
  }

  /** Reading a field and encoding the value at the same width gives the field back. */
  lemma {:induction false} EncodeDecode(s: seq<byte>)
    requires |s| > 0
    ensures EncodeLE(SignedLE(s), |s|) == s
  {
    var v := SignedLE(s);
    if |s| == 1 {
      assert s[1..] == [];
      assert v % 256 == s[0];
    } else {
      assert s == [s[0]] + s[1..];
      SignedLECons(s[0], s[1..]);
      assert v % 256 == s[0] && v / 256 == SignedLE(s[1..]);
      EncodeDecode(s[1..]);
    }
  }

  /** n bytes of 0xFF. */
  function Ones(n: nat): (s: seq<byte>)
    ensures |s| == n && forall i :: 0 <= i < n ==> s[i] == 0xFF
  {
    if n == 0 then [] else [0xFF] + Ones(n - 1)
  }

  /** A field of all 0xFF bytes is -1 at every width: the sign bit reaches all 64 bits. */
  lemma {:induction false} AllOnesIsMinusOne(n: nat)
    requires n > 0
    ensures SignedLE(Ones(n)) == -1
  {
    if n > 1 {
      AllOnesIsMinusOne(n - 1);
      SignedLECons(0xFF, Ones(n - 1));
    }
  }

  /** 0xFF bytes under a top byte of 0x7F give the largest value of the width, 2^(8n-1) - 1. */
  lemma {:induction false} MaxPatternIsMax(n: nat)
    requires n > 0
    ensures SignedLE(Ones(n - 1) + [0x7F]) == Pow256(n) / 2 - 1
  {
    if n > 1 {
      MaxPatternIsMax(n - 1);
      assert Ones(n - 1) + [0x7F] == [0xFF] + (Ones(n - 2) + [0x7F]);
      SignedLECons(0xFF, Ones(n - 2) + [0x7F]);
      Pow256Even(n - 1);
    } else {
      assert Ones(0) + [0x7F] == [0x7F];
    }
  }
}
