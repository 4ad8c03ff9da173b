/** Integer sizing rules of the image helper: the bitmap down-sampling factor and the launcher icon size. */
module ImageSizing {
  import opened JavaInt

  /** 1, 2, 4, 8, ... */
  predicate IsPowerOfTwo(n: int)
    decreases if n > 0 then n else 0
  {
    n == 1 || (n > 1 && n % 2 == 0 && IsPowerOfTwo(n / 2))
  }

  /** No power of two lies strictly between `s` and `2 * s`. */
  lemma {:induction false} PowerOfTwoBelowDouble(p: int, s: int)
    requires IsPowerOfTwo(p) && IsPowerOfTwo(s) && p < 2 * s
    ensures p <= s
    decreases s
  {
    if p > 1 && s > 1 {
      PowerOfTwoBelowDouble(p / 2, s / 2);
    }
  }

  /** A truncated quotient of at least one means the dividend is at least the divisor. */
  lemma QuotientAtLeastOne(a: int, b: int)
    requires b > 0 && Div(a, b) >= 1
    ensures a >= b
  {
    DivBounds(a, b);
  }

  /**
   * The down-sampling factor handed to the bitmap decoder: 1 when the image already fits the
   * requested box, otherwise the first power of two at which halving the image's dimensions and
   * dividing by it no longer keeps BOTH halves above the requested size. Every smaller power of two
   * still keeps both above it, and the doubling never leaves Java's `int` range.
   */
  method CalculateSampleParameter(height: int, width: int, reqWidth: int, reqHeight: int)
    returns (inSampleSize: int)
    requires IsInt(height) && IsInt(width) && IsInt(reqWidth) && IsInt(reqHeight)
    requires reqHeight >= 0 || reqWidth >= 0
    ensures IsPowerOfTwo(inSampleSize) && IsInt(inSampleSize)
    ensures height <= reqHeight && width <= reqWidth ==> inSampleSize == 1
    ensures height > reqHeight || width > reqWidth ==>
              Div(Div(height, 2), inSampleSize) <= reqHeight || Div(Div(width, 2), inSampleSize) <= reqWidth
    ensures forall p :: IsPowerOfTwo(p) && p < inSampleSize ==>
              Div(Div(height, 2), p) > reqHeight && Div(Div(width, 2), p) > reqWidth
  {
    inSampleSize := 1;
    if height > reqHeight || width > reqWidth {
      var halfHeight := Div(height, 2);
      var halfWidth := Div(width, 2);
      while Div(halfHeight, inSampleSize) > reqHeight && Div(halfWidth, inSampleSize) > reqWidth
        invariant IsPowerOfTwo(inSampleSize) && IsInt(inSampleSize)
        invariant forall p :: IsPowerOfTwo(p) && p < inSampleSize ==>
                    Div(halfHeight, p) > reqHeight && Div(halfWidth, p) > reqWidth
        decreases (if reqHeight >= 0 then halfHeight else halfWidth) - inSampleSize
      {
        var half := if reqHeight >= 0 then halfHeight else halfWidth;
        QuotientAtLeastOne(half, inSampleSize);
        assert half <= IntMax / 2 by {
          DivBounds(if reqHeight >= 0 then height else width, 2);
        }
        assert IsPowerOfTwo(2 * inSampleSize) by {
          assert (2 * inSampleSize) / 2 == inSampleSize;
        }
        forall p | IsPowerOfTwo(p) && p < 2 * inSampleSize
          ensures Div(halfHeight, p) > reqHeight && Div(halfWidth, p) > reqWidth
        {
          PowerOfTwoBelowDouble(p, inSampleSize);
        }
        inSampleSize := inSampleSize * 2;
      }
    }
  }

  // Values of Configuration.SCREENLAYOUT_SIZE_* and DisplayMetrics.DENSITY_* used by the icon table.
  const ScreenLayoutSizeSmall := 1
  const ScreenLayoutSizeNormal := 2
  const ScreenLayoutSizeLarge := 3
  const ScreenLayoutSizeXLarge := 4
  const DensityLow := 120
  const DensityMedium := 160
  const DensityTv := 213
  const DensityHigh := 240
  const DensityXHigh := 320
  const DensityXXHigh := 480
  const DensityXXXHigh := 640
  const DefaultIconSize := 192

  /** `screenLayout & SCREENLAYOUT_SIZE_MASK` (mask 0x0f): on two's-complement `int`s this is the Euclidean remainder by 16. */
  function ScreenSizeClass(screenLayout: int): (size: int)
    ensures 0 <= size < 16
  {
    screenLayout % 16
  }

  predicate IsKnownSizeClass(size: int) {
    size == ScreenLayoutSizeSmall || size == ScreenLayoutSizeNormal
    || size == ScreenLayoutSizeLarge || size == ScreenLayoutSizeXLarge
  }

  /** The six densities the icon table names (the TV density is not one of them). */
  predicate IsTabulatedDensity(densityDpi: int) {
    densityDpi == DensityLow || densityDpi == DensityMedium || densityDpi == DensityHigh
    || densityDpi == DensityXHigh || densityDpi == DensityXXHigh || densityDpi == DensityXXXHigh
  }

  /** The switch on `densityDpi` that each recognised screen-size class runs. */
  function IconSizeForDensity(densityDpi: int): (value: int)
    ensures IsTabulatedDensity(densityDpi) ==> value * 160 == 48 * densityDpi
    ensures !IsTabulatedDensity(densityDpi) ==> value == DefaultIconSize
  {
    if densityDpi == DensityLow then 36
    else if densityDpi == DensityMedium then 48
    else if densityDpi == DensityHigh then 72
    else if densityDpi == DensityXHigh then 96
    else if densityDpi == DensityXXHigh then 144
    else if densityDpi == DensityXXXHigh then 192
    else DefaultIconSize
  }

  /**
   * The launcher icon size in pixels. For a tabulated density and a recognised size class it is a
   * 48 dp icon converted at that density (dp * dpi / 160); the TV density, any other density and an
   * unrecognised size class keep the default 192.
   */
  function IconSize(screenLayout: int, densityDpi: int): (value: int)
    ensures value == 36 || value == 48 || value == 72 || value == 96 || value == 144 || value == 192
    ensures IsKnownSizeClass(ScreenSizeClass(screenLayout)) && IsTabulatedDensity(densityDpi) ==>
              value * 160 == 48 * densityDpi
    ensures !IsKnownSizeClass(ScreenSizeClass(screenLayout)) || !IsTabulatedDensity(densityDpi) ==>
              value == DefaultIconSize
  {
    // The source repeats one identical density switch under each of the four size classes.
    if IsKnownSizeClass(ScreenSizeClass(screenLayout)) then IconSizeForDensity(densityDpi)
    else DefaultIconSize
  }

  /** The size class never changes the icon size among the recognised classes. */
  lemma IconSizeIgnoresSizeClass(layout1: int, layout2: int, densityDpi: int)
    requires IsKnownSizeClass(ScreenSizeClass(layout1)) && IsKnownSizeClass(ScreenSizeClass(layout2))
    ensures IconSize(layout1, densityDpi) == IconSize(layout2, densityDpi)
  {
  }

  /** Over the tabulated densities, a denser screen never gets a smaller icon. */
  lemma IconSizeMonotone(screenLayout: int, d1: int, d2: int)
    requires IsTabulatedDensity(d1) && IsTabulatedDensity(d2) && d1 <= d2
    ensures IconSize(screenLayout, d1) <= IconSize(screenLayout, d2)
  {
  }
}
