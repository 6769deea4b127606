/** The BT.601 raster pass: real luminance is written back to 8-bit BGR by
    shifting all channels by the integer part of the change and some of them
    by one more, so that the leftover fraction is matched best. */
module Raster {
  import opened Numbers
  import opened Transform

  datatype Pixel = Pixel(b: int, g: int, r: int) {
    predicate Bytes() { 0 <= b <= 255 && 0 <= g <= 255 && 0 <= r <= 255 }
  }

  type Page = (int, int) -> Pixel

  function Luminance(p: Pixel): real {
    p.b as real * 0.114 + p.g as real * 0.587 + p.r as real * 0.299
  }

  function LuminanceOf(page: Page): Field { (y, x) => Luminance(page(y, x)) }

  /** Channel pattern of a 3-bit mask, blue in the lowest bit. */
  function Pattern(mask: int): Pixel { Pixel(mask % 2, mask / 2 % 2, mask / 4 % 2) }

  function Mismatch(fraction: real, mask: int): real { Abs(fraction - Luminance(Pattern(mask))) }

  /** argmin over masks 0..n-1, the first minimum winning. */
  function BestMask(fraction: real, n: nat): (mask: int)
    requires 0 < n <= 8
    ensures 0 <= mask < n
    ensures forall k :: 0 <= k < n ==> Mismatch(fraction, mask) <= Mismatch(fraction, k)
    ensures forall k :: 0 <= k < mask ==> Mismatch(fraction, mask) < Mismatch(fraction, k)
    decreases n, fraction
  {
    if n == 1 then 0
    else
      var best := BestMask(fraction, n - 1);
      if Mismatch(fraction, n - 1) < Mismatch(fraction, best) then n - 1 else best
  }

  function Clip(value: int): int { if value < 0 then 0 else if value > 255 then 255 else value }

  /** The channel values before clipping. */
  function Shifted(p: Pixel, change: real): Pixel {
    var base := change.Floor;
    var pattern := Pattern(BestMask(change - base as real, 8));
    Pixel(p.b + (base + pattern.b), p.g + (base + pattern.g), p.r + (base + pattern.r))
  }

  function ReplacePixel(p: Pixel, original: real, modified: real): Pixel {
    if modified == original then p
    else
      var q := Shifted(p, modified - original);
      Pixel(Clip(q.b), Clip(q.g), Clip(q.r))
  }

  function ReplaceLuminanceOnce(page: Page, original: Field, modified: Field): Page {
    (y, x) => ReplacePixel(page(y, x), original(y, x), modified(y, x))
  }

  /** No channel saturates when this pixel is written. */
  predicate Unclipped(p: Pixel, original: real, modified: real) {
    modified == original || Shifted(p, modified - original).Bytes()
  }

  /** The eight levels leave no gap wider than 0.185. */
  lemma LevelsAreDense(fraction: real)
    requires 0.0 <= fraction < 1.0
    ensures Mismatch(fraction, BestMask(fraction, 8)) <= 0.0925
  {
    var mask := NearMask(fraction);
    assert Mismatch(fraction, BestMask(fraction, 8)) <= Mismatch(fraction, mask);
  }

  lemma NearMask(fraction: real) returns (mask: int)
    requires 0.0 <= fraction < 1.0
    ensures 0 <= mask < 8 && Mismatch(fraction, mask) <= 0.0925
  {
    mask := if fraction < 0.057 then 0 else if fraction < 0.2065 then 1 else if fraction < 0.356 then 4
            else if fraction < 0.5 then 5 else if fraction < 0.644 then 2 else if fraction < 0.7935 then 3
            else if fraction < 0.943 then 6 else 7;
  }

  lemma ShiftedLuminance(p: Pixel, base: int, pattern: Pixel)
    ensures Luminance(Pixel(p.b + (base + pattern.b), p.g + (base + pattern.g), p.r + (base + pattern.r)))
         == Luminance(p) + base as real + Luminance(pattern)
  {
  }

  lemma ShiftError(p: Pixel, change: real)
    ensures Abs(Luminance(Shifted(p, change)) - (Luminance(p) + change)) <= 0.0925
  {
    var base := change.Floor;
    LevelsAreDense(change - base as real);
    ShiftedLuminance(p, base, Pattern(BestMask(change - base as real, 8)));
  }

  /** An unclipped pixel's new luminance misses the requested one by at most
      0.0925, and its channels are bytes again. */
  lemma PixelError(p: Pixel, modified: real)
    requires p.Bytes() && Unclipped(p, Luminance(p), modified)
    ensures var q := ReplacePixel(p, Luminance(p), modified);
            q.Bytes() && Abs(Luminance(q) - modified) <= 0.0925
  {
    ShiftError(p, modified - Luminance(p));
    ClipBytes(Shifted(p, modified - Luminance(p)));
  }

  lemma ClipBytes(q: Pixel)
    ensures q.Bytes() ==> Pixel(Clip(q.b), Clip(q.g), Clip(q.r)) == q
  {
  }

  /** Clipping gives the nearest byte. */
  lemma ClippedNearest(value: int, byte: int)
    requires 0 <= byte <= 255
    ensures 0 <= Clip(value) <= 255
    ensures Abs((Clip(value) - value) as real) <= Abs((byte - value) as real)
  {
  }

  lemma WholeStep()
    ensures BestMask(0.0, 8) == 0
  {
    var mask := BestMask(0.0, 8);
    assert Mismatch(0.0, mask) <= Mismatch(0.0, 0) == 0.0;
    assert mask == 0 || mask == 1 || mask == 2 || mask == 3 || mask == 4 || mask == 5 || mask == 6 || mask == 7;
  }

  lemma PatternBits(mask: int)
    requires 0 <= mask < 8
    ensures Pattern(mask).b in {0, 1} && Pattern(mask).g in {0, 1} && Pattern(mask).r in {0, 1}
  {
  }

  lemma ChannelRoom(value: int, change: real)
    requires 0 <= value <= 255 && 0.0 <= value as real + change <= 255.0
    ensures 0 <= value + change.Floor <= 255
    ensures change != change.Floor as real ==> value + change.Floor <= 254
  {
  }

  lemma GrayShift(value: int, change: real)
    requires 0 <= value <= 255 && 0.0 <= value as real + change <= 255.0
    ensures Shifted(Pixel(value, value, value), change).Bytes()
  {
    var base := change.Floor;
    ChannelRoom(value, change);
    PatternBits(BestMask(change - base as real, 8));
    if change == base as real { WholeStep(); }
  }

  /** A gray pixel reaches every luminance on the scale without clipping. */
  lemma GrayNeverClips(p: Pixel, modified: real)
    requires p.Bytes() && p.b == p.g == p.r && 0.0 <= modified <= 255.0
    ensures Unclipped(p, Luminance(p), modified)
  {
    assert Luminance(p) == p.b as real;
    GrayShift(p.b, modified - Luminance(p));
  }
}
