/** Texture sizing for rectangular detector banks
    (qt/widgets/instrumentview/src/BankRenderingHelpers.cpp). A bank of
    nX by nY pixels is drawn into a texture whose sides are powers of two; the
    fraction of the texture actually used along each side is nX / texX and
    nY / texY. The OpenGL calls are not modelled. */
module BankRendering {

  /** One more than the largest `size_t` (64 bits). */
  const SizeLimit: nat := 0x1_0000_0000_0000_0000

  /** The largest size for which the doubling loop terminates: beyond it the
      doubled value wraps to 0 in `size_t` and stays there. */
  const LargestRoundable: nat := 0x8000_0000_0000_0000

  predicate IsPowerOfTwo(n: nat)
    decreases n
  {
    n == 1 || (n >= 2 && n % 2 == 0 && IsPowerOfTwo(n / 2))
  }

  /** `r` is the smallest power of two that is at least `val` and at least 2. */
  predicate IsRoundedSize(val: nat, r: nat)
  {
    IsPowerOfTwo(r) && 2 <= r && val <= r && (r == 2 || r / 2 < val)
  }

  /** Of two different powers of two the larger is at least twice the smaller. */
  lemma {:induction false} PowerOfTwoGap(p: nat, q: nat)
    requires IsPowerOfTwo(p) && IsPowerOfTwo(q) && p < q
    ensures 2 * p <= q
    decreases q
  {
    if p >= 2 {
      PowerOfTwoGap(p / 2, q / 2);
    }
  }

  /** There is only one rounded size for each value. */
  lemma RoundedSizeUnique(val: nat, r1: nat, r2: nat)
    requires IsRoundedSize(val, r1) && IsRoundedSize(val, r2)
    ensures r1 == r2
  {
    if r1 < r2 {
      PowerOfTwoGap(r1, r2);
    } else if r2 < r1 {
      PowerOfTwoGap(r2, r1);
    }
  }

  /** `roundToNearestPowerOfTwo`: double from 2 until the value is reached. */
  method RoundToNearestPowerOfTwo(val: nat) returns (rounded: nat)
    requires val <= LargestRoundable
    ensures IsRoundedSize(val, rounded)
    ensures rounded < SizeLimit
    ensures val <= 2 ==> rounded == 2
    ensures IsPowerOfTwo(val) && 2 <= val ==> rounded == val
  {
    rounded := 2;
    while val > rounded
      invariant IsPowerOfTwo(rounded) && 2 <= rounded < SizeLimit
      invariant rounded == 2 || rounded / 2 < val
      decreases val - rounded
    {
      rounded := rounded * 2;
    }
    if val <= 2 {
      RoundedSizeUnique(val, rounded, 2);
    }
    if IsPowerOfTwo(val) && 2 <= val {
      RoundedSizeUnique(val, rounded, val);
    }
  }

  /** The share of a texture side that a bank of `pixels` pixels covers. */
  function TextureFraction(pixels: nat, textureSize: nat): real
    requires textureSize > 0
  {
    pixels as real / textureSize as real
  }

  /** A texture at least as wide as the bank is used by a fraction in [0, 1]. */
  lemma FractionAtMostOne(pixels: nat, textureSize: nat)
    requires 0 < textureSize && pixels <= textureSize
    ensures 0.0 <= TextureFraction(pixels, textureSize) <= 1.0
  {
    var f, t := TextureFraction(pixels, textureSize), textureSize as real;
    assert f * t == pixels as real;
    if f > 1.0 {
      assert false;
    }
    if f < 0.0 {
      assert false;
    }
  }

  /** `getCorrectedTextureSize`: both sides are rounded independently, so the
      texture covers the bank and the texture fractions never exceed 1. */
  method GetCorrectedTextureSize(width: nat, height: nat) returns (texX: nat, texY: nat)
    requires width <= LargestRoundable && height <= LargestRoundable
    ensures IsRoundedSize(width, texX) && IsRoundedSize(height, texY)
    ensures 0.0 <= TextureFraction(width, texX) <= 1.0
    ensures 0.0 <= TextureFraction(height, texY) <= 1.0
  {
    texX := RoundToNearestPowerOfTwo(width);
    texY := RoundToNearestPowerOfTwo(height);
    FractionAtMostOne(width, texX);
    FractionAtMostOne(height, texY);
  }
}
