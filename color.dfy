/** Turning an accumulated pixel colour into 8-bit channels (src/color.rs):
    average over the samples, gamma-correct with a square root, clamp just
    below 1 and scale to `[0, 256)`. */
module Colors {
  import opened Vectors

  /** `clamp(x, min, max)`. */
  function Clamp(x: real, min: real, max: real): real {
    if x < min then min
    else if x > max then max
    else x
  }

  /** Below the range gives `min`, above it gives `max`; inside it, `x`
      comes back unchanged. */
  lemma ClampCases(x: real, min: real, max: real)
    ensures x < min ==> Clamp(x, min, max) == min
    ensures min <= x && max < x ==> Clamp(x, min, max) == max
    ensures min <= x <= max ==> Clamp(x, min, max) == x
  {
  }

  /** With `min <= max` the result lies in `[min, max]`. */
  lemma ClampBounds(x: real, min: real, max: real)
    requires min <= max
    ensures min <= Clamp(x, min, max) <= max
  {
  }

  /** Clamping twice is clamping once. */
  lemma ClampIdempotent(x: real, min: real, max: real)
    requires min <= max
    ensures Clamp(Clamp(x, min, max), min, max) == Clamp(x, min, max)
  {
  }

  /** Rust's saturating `f64 as u8` on finite values: truncation towards
      zero, then saturation to `[0, 255]`. */
  function CastU8(x: real): (r: int)
    ensures 0 <= r <= 255
    ensures 0.0 <= x < 256.0 ==> r == x.Floor
  {
    if x < 0.0 then 0
    else if x >= 255.0 then 255
    else x.Floor
  }

  /** The output channel of one colour component. */
  function Channel(component: real, samplesPerPixel: int, sqrt: real -> real): int
    requires samplesPerPixel != 0
  {
    var scale := 1.0 / samplesPerPixel as real;
    CastU8(256.0 * Clamp(sqrt(component * scale), 0.0, 0.999))
  }

  /** `format_pixel_color`: the three channels of a pixel. */
  function FormatPixelColor(pixelColor: Color, samplesPerPixel: int, sqrt: real -> real): (int, int, int)
    requires samplesPerPixel != 0
  {
    (Channel(pixelColor.x, samplesPerPixel, sqrt),
     Channel(pixelColor.y, samplesPerPixel, sqrt),
     Channel(pixelColor.z, samplesPerPixel, sqrt))
  }

  /** Each channel is `floor(256 * clamp(sqrt(component / samples), 0, 0.999))`
      and lies in `[0, 255]`. */
  lemma {:induction false} ChannelIsFloor(component: real, samplesPerPixel: int, sqrt: real -> real)
    requires samplesPerPixel != 0
    ensures var v := Clamp(sqrt(component * (1.0 / samplesPerPixel as real)), 0.0, 0.999);
      Channel(component, samplesPerPixel, sqrt) == (256.0 * v).Floor
    ensures 0 <= Channel(component, samplesPerPixel, sqrt) <= 255
  {
    var v := Clamp(sqrt(component * (1.0 / samplesPerPixel as real)), 0.0, 0.999);
    ClampBounds(sqrt(component * (1.0 / samplesPerPixel as real)), 0.0, 0.999);
    assert 0.0 <= 256.0 * v < 256.0;
  }

  /** A black component gives channel 0; a component at or above the
      sample count saturates to 255. */
  lemma {:induction false} ChannelExtremes(component: real, samplesPerPixel: int, sqrt: real -> real)
    requires samplesPerPixel != 0
    requires SqrtAt(sqrt, component * (1.0 / samplesPerPixel as real))
    ensures component == 0.0 ==> Channel(component, samplesPerPixel, sqrt) == 0
    ensures component * (1.0 / samplesPerPixel as real) >= 1.0 ==>
              Channel(component, samplesPerPixel, sqrt) == 255
  {
    var x := component * (1.0 / samplesPerPixel as real);
    if component == 0.0 {
      assert x == 0.0;
      SqrtOfZero(sqrt);
    }
    SqrtAtLeastOne(sqrt, x);
  }

  lemma SqrtOfZero(sqrt: real -> real)
    requires SqrtAt(sqrt, 0.0)
    ensures sqrt(0.0) == 0.0
  {
    ProductZero(sqrt(0.0), sqrt(0.0), 0.0);
  }

  /** Every channel of every pixel lies in `[0, 255]`. */
  lemma PixelInRange(pixelColor: Color, samplesPerPixel: int, sqrt: real -> real)
    requires samplesPerPixel != 0
    ensures var rgb := FormatPixelColor(pixelColor, samplesPerPixel, sqrt);
      0 <= rgb.0 <= 255 && 0 <= rgb.1 <= 255 && 0 <= rgb.2 <= 255
  {
  }
}
