/** Bing Maps quadkeys: `tile_to_quadkey` interleaves the bits of a tile's x
    and y index, most significant level first, into a string of base-4 digits
    (no_not_delete/adam.py:95-105, MapParser/download_building_images.py:112-123). */
module Quadkey {
  import opened Wrappers
  import Text
  import opened Arith

  function Pow2(k: nat): (p: nat)
    ensures p >= 1
  {
    if k == 0 then 1 else 2 * Pow2(k - 1)
  }

  /** `(x & (1 << k)) != 0` as 0 or 1. Python's `&` on a negative int acts on
      its infinite two's complement, whose bit k is the parity of
      floor(x / 2^k); Dafny's `/` and `%` by a positive divisor are floor
      division and a non-negative remainder, so this holds for every int. */
  function Bit(x: int, k: nat): (b: nat)
    ensures b < 2
  {
    (x / Pow2(k)) % 2
  }

  /** The digit for bit level k: 1 for the x bit plus 2 for the y bit. */
  function Digit(x: int, y: int, k: nat): (d: nat)
    ensures d < 4
  {
    Bit(x, k) + 2 * Bit(y, k)
  }

  /** The quadkey of tile (x, y) at zoom z, level z-1 first. */
  function QuadkeyOf(x: int, y: int, z: nat): (q: string)
    ensures |q| == z
    ensures forall k | 0 <= k < z :: q[k] == Text.DigitChar(Digit(x, y, z - 1 - k))
  {
    if z == 0 then "" else [Text.DigitChar(Digit(x, y, z - 1))] + QuadkeyOf(x, y, z - 1)
  }

  /** The loop of `tile_to_quadkey`: levels i = z .. 1, mask 1 << (i - 1). */
  method TileToQuadkey(x: int, y: int, z: nat) returns (quadkey: string)
    ensures quadkey == QuadkeyOf(x, y, z)
    ensures |quadkey| == z
    ensures forall k | 0 <= k < z :: '0' <= quadkey[k] <= '3'
  {
    quadkey := "";
    var i := z;
    while i > 0
      invariant 0 <= i <= z
      invariant |quadkey| == z - i
      invariant forall k | 0 <= k < z - i :: quadkey[k] == Text.DigitChar(Digit(x, y, z - 1 - k))
    {
      var digit := 0;
      var mask := Pow2(i - 1);
      if (x / mask) % 2 != 0 {
        digit := digit + 1;
      }
      if (y / mask) % 2 != 0 {
        digit := digit + 2;
      }
      quadkey := quadkey + [Text.DigitChar(digit)];
      i := i - 1;
    }
    ghost var spec := QuadkeyOf(x, y, z);
    assert forall k | 0 <= k < z :: quadkey[k] == spec[k];
  }

  /** Reads a quadkey back, most significant digit first; None for a
      character outside '0'..'3'. */
  function Decode(q: string): (r: Option<(nat, nat)>)
  {
    if q == [] then Some((0, 0))
    else
      match Decode(q[..|q| - 1])
      case None => None
      case Some(xy) =>
        var c := q[|q| - 1];
        if '0' <= c <= '3' then
          var d := c as int - '0' as int;
          Some((2 * xy.0 + d % 2, 2 * xy.1 + d / 2))
        else None
  }

  /** Dividing by 2 and then by p is dividing by 2p. */
  lemma DivDiv2(x: int, p: nat)
    requires p >= 1
    ensures x / (2 * p) == (x / 2) / p
  {
    var q := x / 2;
    var a, b := q / p, q % p;
    assert x == a * (2 * p) + (2 * b + x % 2);
    DivModUnique(x, 2 * p, a, 2 * b + x % 2);
  }

  lemma BitShift(x: int, k: nat)
    ensures Bit(x, k + 1) == Bit(x / 2, k)
  {
    DivDiv2(x, Pow2(k));
  }

  /** Dropping the last digit of a quadkey gives the quadkey of the parent tile. */
  lemma {:induction false} QuadkeyParent(x: int, y: int, z: nat)
    requires z > 0
    ensures QuadkeyOf(x, y, z) == QuadkeyOf(x / 2, y / 2, z - 1) + [Text.DigitChar(Digit(x, y, 0))]
  {
    var q, p := QuadkeyOf(x, y, z), QuadkeyOf(x / 2, y / 2, z - 1);
    forall k | 0 <= k < z - 1
      ensures q[k] == p[k]
    {
      BitShift(x, z - 2 - k);
      BitShift(y, z - 2 - k);
    }
  }

  lemma DecodeAppend(p: string, d: nat, x: nat, y: nat)
    requires d < 4 && Decode(p) == Some((x, y))
    ensures Decode(p + [Text.DigitChar(d)]) == Some((2 * x + d % 2, 2 * y + d / 2))
  {
    var q := p + [Text.DigitChar(d)];
    assert q[..|q| - 1] == p;
  }

  lemma LowDigit(x: nat, y: nat)
    ensures Digit(x, y, 0) % 2 == x % 2 && Digit(x, y, 0) / 2 == y % 2
  {
    assert Pow2(0) == 1;
    assert Bit(x, 0) == x % 2 && Bit(y, 0) == y % 2;
  }

  /** Decoding recovers every tile of the zoom level. */
  lemma {:induction false} DecodeQuadkey(x: nat, y: nat, z: nat)
    requires x < Pow2(z) && y < Pow2(z)
    ensures Decode(QuadkeyOf(x, y, z)) == Some((x, y))
  {
    if z > 0 {
      var p, d := QuadkeyOf(x / 2, y / 2, z - 1), Digit(x, y, 0);
      assert x / 2 < Pow2(z - 1) && y / 2 < Pow2(z - 1) by {
        assert Pow2(z) == 2 * Pow2(z - 1);
      }
      DecodeQuadkey(x / 2, y / 2, z - 1);
      DecodeAppend(p, d, x / 2, y / 2);
      assert QuadkeyOf(x, y, z) == p + [Text.DigitChar(d)] by {
        QuadkeyParent(x, y, z);
      }
      assert 2 * (x / 2) + d % 2 == x && 2 * (y / 2) + d / 2 == y by {
        LowDigit(x, y);
      }
    }
  }

  /** Distinct tiles of one zoom level have distinct quadkeys. */
  lemma QuadkeyInjective(x1: nat, y1: nat, x2: nat, y2: nat, z: nat)
    requires x1 < Pow2(z) && y1 < Pow2(z) && x2 < Pow2(z) && y2 < Pow2(z)
    requires QuadkeyOf(x1, y1, z) == QuadkeyOf(x2, y2, z)
    ensures x1 == x2 && y1 == y2
  {
    DecodeQuadkey(x1, y1, z);
    DecodeQuadkey(x2, y2, z);
  }

  lemma ModTwice(x: int, m: nat)
    requires m >= 1
    ensures (x % (2 * m)) % 2 == x % 2
    ensures (x % (2 * m)) / 2 == (x / 2) % m
  {
    var t, r := x / (2 * m), x % (2 * m);
    assert x == 2 * (t * m) + r;
    DivModUnique(x, 2, t * m + r / 2, r % 2);
    DivModUnique(x / 2, m, t, r / 2);
  }

  /** Only the low z bits reach the quadkey: an index one past either edge
      of the zoom level (x or y of -1 or 2^z, which the 2x2 neighbourhood can
      ask for) silently wraps to the tile on the opposite edge. */
  lemma {:induction false} BitLow(x: int, z: nat, k: nat)
    requires k < z
    ensures Bit(x, k) == Bit(x % Pow2(z), k)
    decreases k
  {
    var m := Pow2(z - 1);
    var low := x % Pow2(z);
    assert low == x % (2 * m) by {
      assert Pow2(z) == 2 * m;
    }
    if k == 0 {
      assert Bit(x, 0) == x % 2 && Bit(low, 0) == low % 2 by {
        assert Pow2(0) == 1;
      }
      assert low % 2 == x % 2 by {
        ModTwice(x, m);
      }
    } else {
      assert Bit(x, k) == Bit(x / 2, k - 1) by {
        BitShift(x, k - 1);
      }
      assert Bit(low, k) == Bit(low / 2, k - 1) by {
        BitShift(low, k - 1);
      }
      assert low / 2 == (x / 2) % m by {
        ModTwice(x, m);
      }
      BitLow(x / 2, z - 1, k - 1);
    }
  }

  lemma QuadkeyWraps(x: int, y: int, z: nat)
    ensures QuadkeyOf(x, y, z) == QuadkeyOf(x % Pow2(z), y % Pow2(z), z)
  {
    var a, b := QuadkeyOf(x, y, z), QuadkeyOf(x % Pow2(z), y % Pow2(z), z);
    forall k | 0 <= k < z
      ensures a[k] == b[k]
    {
      BitLow(x, z, z - 1 - k);
      BitLow(y, z, z - 1 - k);
    }
  }
}
